// The diversity-aware curriculum selector (diverse_select.py).
module RoundRobin {
  import opened PyText
  import opened StableSort
  import CanonicalJson

  datatype Item = Item(prompt: string, split: string, tools: seq<string>, difficulty: int)

  // A sorted tuple of tools is determined by their multiset.
  type Family = multiset<string>

  function FamilyOf(item: Item): Family {
    if item.tools == [] then multiset{"?"} else multiset(item.tools)
  }

  // A text order as sorted() uses it: no later text comes before an earlier one.
  ghost predicate InOrder(s: seq<string>) {
    forall i, j :: 0 <= i < j < |s| ==> !CanonicalJson.Before(s[j], s[i])
  }

  // tuple(sorted(tools)) or ("?",), where a is sorted(tools)
  function Key(sorted: seq<string>): seq<string> {
    if sorted == [] then ["?"] else sorted
  }

  lemma {:induction false} SortedIsUnique(a: seq<string>, b: seq<string>)
    requires InOrder(a) && InOrder(b) && multiset(a) == multiset(b)
    ensures a == b
  {
    if a == [] || b == [] {
      assert |a| == |multiset(a)| && |b| == |multiset(b)|;
    } else {
      LeastFirst(a, b);
      LeastFirst(b, a);
      CanonicalJson.BeforeTotal(a[0], b[0]);
      assert a == [a[0]] + a[1..] && b == [b[0]] + b[1..];
      assert multiset(a[1..]) == multiset(a) - multiset{a[0]} && multiset(b[1..]) == multiset(b) - multiset{b[0]};
      SortedIsUnique(a[1..], b[1..]);
    }
  }

  lemma LeastFirst(a: seq<string>, b: seq<string>)
    requires InOrder(a) && multiset(a) == multiset(b) && a != [] && b != []
    ensures !CanonicalJson.Before(b[0], a[0])
  {
    assert b[0] in multiset(a);
    var i :| 0 <= i < |a| && a[i] == b[0];
    CanonicalJson.BeforeTotal(a[0], a[0]);
  }

  // Two items are of one family exactly when their sorted tools, or ("?",) for none, are the same.
  lemma SameFamilyIff(x: Item, y: Item, a: seq<string>, b: seq<string>)
    requires InOrder(a) && multiset(a) == multiset(x.tools)
    requires InOrder(b) && multiset(b) == multiset(y.tools)
    ensures FamilyOf(x) == FamilyOf(y) <==> Key(a) == Key(b)
  {
    assert |multiset(a)| == |a| && |multiset(b)| == |b|;
    assert |multiset(x.tools)| == |x.tools| && |multiset(y.tools)| == |y.tools|;
    assert multiset(["?"]) == multiset{"?"};
    assert FamilyOf(x) == multiset(Key(a)) && FamilyOf(y) == multiset(Key(b));
    assert InOrder(Key(a)) && InOrder(Key(b));
    if FamilyOf(x) == FamilyOf(y) {
      SortedIsUnique(Key(a), Key(b));
    }
  }

  // ---- rounds ----

  // The r-th item of a bucket, if it has one.
  function Rth<T>(b: seq<T>, r: nat): seq<T> {
    if r < |b| then [b[r]] else []
  }

  // The r-th items of the first i buckets.
  function RoundUpTo<T>(buckets: seq<seq<T>>, r: nat, i: nat): seq<T>
    requires i <= |buckets|
  {
    if i == 0 then []
    else RoundUpTo(buckets, r, i - 1) + Rth(buckets[i - 1], r)
  }

  function Rounds<T>(buckets: seq<seq<T>>, r: nat): seq<T> {
    if r == 0 then [] else Rounds(buckets, r - 1) + RoundUpTo(buckets, r - 1, |buckets|)
  }

  function Longest<T>(buckets: seq<seq<T>>): (n: nat)
    ensures forall i :: 0 <= i < |buckets| ==> |buckets[i]| <= n
    ensures n == 0 || exists i :: 0 <= i < |buckets| && |buckets[i]| == n
  {
    if buckets == [] then 0
    else
      var n := Longest(buckets[1..]);
      assert forall i :: 0 < i < |buckets| ==> buckets[i] == buckets[1..][i - 1];
      assert forall i :: 0 <= i < |buckets[1..]| ==> buckets[1..][i] == buckets[i + 1];
      if |buckets[0]| > n then |buckets[0]| else n
  }

  // The transposed reading: first every bucket's first item, then every bucket's second, and so on.
  function Interleave<T>(buckets: seq<seq<T>>): seq<T> {
    Rounds(buckets, Longest(buckets))
  }

  // Bucket b after r rounds.
  function After<T>(b: seq<T>, r: nat): seq<T> {
    if r <= |b| then b[r..] else []
  }

  // The buckets when round r has passed the first i of them.
  function Remaining<T>(buckets: seq<seq<T>>, r: nat, i: nat): (now: seq<seq<T>>)
    ensures |now| == |buckets|
  {
    seq(|buckets|, k requires 0 <= k < |buckets| => After(buckets[k], if k < i then r + 1 else r))
  }

  predicate Any<T>(buckets: seq<seq<T>>) {
    exists i :: 0 <= i < |buckets| && buckets[i] != []
  }

  lemma RoundsLeft<T>(buckets: seq<seq<T>>, r: nat)
    ensures Any(Remaining(buckets, r, 0)) <==> r < Longest(buckets)
  {
    var now := Remaining(buckets, r, 0);
    if r < Longest(buckets) {
      var i :| 0 <= i < |buckets| && |buckets[i]| == Longest(buckets);
      assert now[i] == After(buckets[i], r);
    }
    if Any(now) {
      var i :| 0 <= i < |now| && now[i] != [];
      assert |buckets[i]| <= Longest(buckets);
    }
  }

  // [x] for the first item x, or [].
  function Head<T>(b: seq<T>): seq<T> {
    if b == [] then [] else [b[0]]
  }

  function Rest<T>(b: seq<T>): seq<T> {
    if b == [] then [] else b[1..]
  }

  // The while any(buckets) loop: it takes every bucket's first item, round after round.
  method PopRounds<T>(buckets: seq<seq<T>>) returns (out: seq<T>)
    ensures out == Interleave(buckets)
  {
    out := [];
    var now := buckets;
    ghost var r, last := 0, Longest(buckets);
    while Any(now)
      invariant r <= last && now == Remaining(buckets, r, 0) && out == Rounds(buckets, r)
      decreases last - r
    {
      RoundsLeft(buckets, r);
      out, now := PopRound(out, now, buckets, r);
      r := r + 1;
    }
    RoundsLeft(buckets, r);
  }

  // One round: for b in buckets: if b: out.append(b.pop(0))
  method PopRound<T>(before: seq<T>, left: seq<seq<T>>, ghost buckets: seq<seq<T>>, ghost r: nat)
    returns (out: seq<T>, now: seq<seq<T>>)
    requires left == Remaining(buckets, r, 0) && before == Rounds(buckets, r)
    ensures now == Remaining(buckets, r + 1, 0) && out == Rounds(buckets, r + 1)
  {
    out, now := before, left;
    var i := 0;
    while i < |now|
      invariant 0 <= i <= |now| && now == Remaining(buckets, r, i)
      invariant out == before + RoundUpTo(buckets, r, i)
    {
      out, now := PopOne(out, now, i);
      i := i + 1;
    }
  }

  // if b: out.append(b.pop(0)), for b = buckets[i]
  method PopOne<T>(before: seq<T>, left: seq<seq<T>>, i: nat) returns (out: seq<T>, now: seq<seq<T>>)
    requires i < |left|
    ensures out == before + Head(left[i]) && now == left[i := Rest(left[i])]
  {
    out, now := before, left;
    if now[i] != [] {
      out := out + [now[i][0]];
      now := now[i := now[i][1..]];
    }
  }

  // ---- balance ----

  // The members with one key, in order.
  function Of<T, K(==)>(s: seq<T>, key: T -> K, k: K): seq<T> {
    if s == [] then []
    else Of(s[..|s| - 1], key, k) + (if key(s[|s| - 1]) == k then [s[|s| - 1]] else [])
  }

  lemma {:induction false} OfAppend<T, K>(a: seq<T>, b: seq<T>, key: T -> K, k: K)
    ensures Of(a + b, key, k) == Of(a, key, k) + Of(b, key, k)
  {
    if b == [] {
      assert a + b == a;
    } else {
      assert (a + b)[..|a + b| - 1] == a + b[..|b| - 1];
      OfAppend(a, b[..|b| - 1], key, k);
    }
  }

  // Every bucket holds the items of its own key.
  ghost predicate Keyed<T, K>(buckets: seq<seq<T>>, key: T -> K, keys: seq<K>) {
    && |keys| == |buckets|
    && (forall i, j :: 0 <= i < j < |keys| ==> keys[i] != keys[j])
    && forall i :: 0 <= i < |keys| ==> AllOf(buckets[i], key, keys[i])
  }

  ghost predicate AllOf<T, K>(s: seq<T>, key: T -> K, k: K) {
    forall x :: x in s ==> key(x) == k
  }

  function Upto<T>(b: seq<T>, r: nat): seq<T> {
    if r <= |b| then b[..r] else b
  }

  // Of the first i buckets, bucket j alone gives key k its r-th item.
  ghost predicate RoundGives<T, K>(buckets: seq<seq<T>>, key: T -> K, k: K, r: nat, i: nat, j: nat)
    requires i <= |buckets| && j < |buckets|
  {
    Of(RoundUpTo(buckets, r, i), key, k) == if j < i then Rth(buckets[j], r) else []
  }

  lemma RoundNext<T, K>(buckets: seq<seq<T>>, key: T -> K, k: K, r: nat, i: nat, j: nat)
    requires 0 < i <= |buckets| && j < |buckets| && RoundGives(buckets, key, k, r, i - 1, j)
    requires OnlyFrom(buckets, key, k, r, j)
    ensures RoundGives(buckets, key, k, r, i, j)
  {
    var x := if j < i - 1 then Rth(buckets[j], r) else [];
    var y := if j == i - 1 then Rth(buckets[j], r) else [];
    OfSum(RoundUpTo(buckets, r, i), RoundUpTo(buckets, r, i - 1), Rth(buckets[i - 1], r), key, k, x, y);
  }

  lemma OfSum<T, K>(s: seq<T>, a: seq<T>, b: seq<T>, key: T -> K, k: K, x: seq<T>, y: seq<T>)
    requires s == a + b && Of(a, key, k) == x && Of(b, key, k) == y
    ensures Of(s, key, k) == x + y && (x == [] ==> x + y == y) && (y == [] ==> x + y == x)
  {
    OfAppend(a, b, key, k);
  }

  // Bucket j alone has r-th items of key k.
  ghost predicate OnlyFrom<T, K>(buckets: seq<seq<T>>, key: T -> K, k: K, r: nat, j: nat) {
    forall m :: 0 <= m < |buckets| ==> Of(Rth(buckets[m], r), key, k) == if m == j then Rth(buckets[m], r) else []
  }

  lemma RoundGivesNone<T, K>(buckets: seq<seq<T>>, key: T -> K, k: K, r: nat, j: nat)
    requires j < |buckets|
    ensures RoundGives(buckets, key, k, r, 0, j)
  {
  }

  lemma {:induction false} RoundGivesUpTo<T, K>(buckets: seq<seq<T>>, key: T -> K, k: K, r: nat, i: nat, j: nat)
    requires OnlyFrom(buckets, key, k, r, j) && j < |buckets| && i <= |buckets|
    ensures RoundGives(buckets, key, k, r, i, j)
  {
    if i == 0 {
      RoundGivesNone(buckets, key, k, r, j);
    } else {
      RoundGivesUpTo(buckets, key, k, r, i - 1, j);
      RoundNext(buckets, key, k, r, i, j);
    }
  }

  lemma OfRound<T, K>(buckets: seq<seq<T>>, key: T -> K, keys: seq<K>, r: nat, i: nat, j: nat)
    requires Keyed(buckets, key, keys) && j < |keys| && i <= |buckets|
    ensures RoundGives(buckets, key, keys[j], r, i, j)
  {
    forall m | 0 <= m < |buckets|
      ensures Of(Rth(buckets[m], r), key, keys[j]) == if m == j then Rth(buckets[m], r) else []
    {
      OfLast(buckets, key, keys, r, m, j);
    }
    RoundGivesUpTo(buckets, key, keys[j], r, i, j);
  }

  lemma OfLast<T, K>(buckets: seq<seq<T>>, key: T -> K, keys: seq<K>, r: nat, i: nat, j: nat)
    requires Keyed(buckets, key, keys) && j < |keys| && i < |buckets|
    ensures Of(Rth(buckets[i], r), key, keys[j]) == if j == i then Rth(buckets[i], r) else []
  {
    if r < |buckets[i]| {
      OfOne([buckets[i][r]], key, keys[j]);
      OwnKey(buckets, key, keys, i, r, j);
    }
  }

  lemma OwnKey<T, K>(buckets: seq<seq<T>>, key: T -> K, keys: seq<K>, i: nat, r: nat, j: nat)
    requires Keyed(buckets, key, keys) && i < |keys| && j < |keys| && r < |buckets[i]|
    ensures key(buckets[i][r]) == keys[j] <==> i == j
  {
    assert AllOf(buckets[i], key, keys[i]);
  }

  lemma OfOne<T, K>(s: seq<T>, key: T -> K, k: K)
    requires |s| <= 1
    ensures Of(s, key, k) == if |s| == 1 && key(s[0]) == k then s else []
  {
    if |s| == 1 {
      assert s[..0] == [];
    }
  }

  lemma UptoStep<T>(b: seq<T>, r: nat)
    ensures Upto(b, r) + (if r < |b| then [b[r]] else []) == Upto(b, r + 1)
  {
  }

  // Key j has had the first r items of its bucket.
  ghost predicate Had<T, K>(s: seq<T>, buckets: seq<seq<T>>, key: T -> K, keys: seq<K>, r: nat, j: nat)
    requires j < |keys| && |keys| == |buckets|
  {
    Of(s, key, keys[j]) == Upto(buckets[j], r)
  }

  lemma OfPrefix<T, K>(buckets: seq<seq<T>>, key: T -> K, keys: seq<K>, r: nat, i: nat, j: nat)
    requires Keyed(buckets, key, keys) && j < |keys| && i <= |buckets|
    requires Had(Rounds(buckets, r), buckets, key, keys, r, j)
    ensures Had(Rounds(buckets, r) + RoundUpTo(buckets, r, i), buckets, key, keys, if j < i then r + 1 else r, j)
  {
    OfAppend(Rounds(buckets, r), RoundUpTo(buckets, r, i), key, keys[j]);
    OfRound(buckets, key, keys, r, i, j);
    UptoStep(buckets[j], r);
  }

  lemma OfNextRound<T, K>(buckets: seq<seq<T>>, key: T -> K, keys: seq<K>, r: nat, j: nat)
    requires Keyed(buckets, key, keys) && j < |keys|
    requires Had(Rounds(buckets, r), buckets, key, keys, r, j)
    ensures Had(Rounds(buckets, r + 1), buckets, key, keys, r + 1, j)
  {
    OfPrefix(buckets, key, keys, r, |buckets|, j);
  }

  lemma OfNoRounds<T, K>(buckets: seq<seq<T>>, key: T -> K, keys: seq<K>, j: nat)
    requires j < |keys| && |keys| == |buckets|
    ensures Had(Rounds(buckets, 0), buckets, key, keys, 0, j)
  {
  }

  lemma OfRounds<T, K>(buckets: seq<seq<T>>, key: T -> K, keys: seq<K>, r: nat, j: nat)
    requires Keyed(buckets, key, keys) && j < |keys|
    ensures Had(Rounds(buckets, r), buckets, key, keys, r, j)
  {
    OfNoRounds(buckets, key, keys, j);
    for q := 0 to r
      invariant Had(Rounds(buckets, q), buckets, key, keys, q, j)
    {
      OfNextRound(buckets, key, keys, q, j);
    }
  }

  // Every prefix ends within some round r, after the buckets before i.
  lemma {:induction false} PrefixOfRounds<T>(buckets: seq<seq<T>>, rounds: nat, n: nat) returns (r: nat, i: nat)
    requires n <= |Rounds(buckets, rounds)|
    ensures i <= |buckets| && Rounds(buckets, rounds)[..n] == Rounds(buckets, r) + RoundUpTo(buckets, r, i)
  {
    if rounds == 0 {
      r, i := 0, 0;
    } else {
      var done, last := Rounds(buckets, rounds - 1), RoundUpTo(buckets, rounds - 1, |buckets|);
      if n <= |done| {
        r, i := PrefixOfRounds(buckets, rounds - 1, n);
        assert (done + last)[..n] == done[..n];
      } else {
        r := rounds - 1;
        i := PrefixOfRound(buckets, r, |buckets|, n - |done|);
        assert (done + last)[..n] == done + last[..n - |done|];
      }
    }
  }

  lemma {:induction false} PrefixOfRound<T>(buckets: seq<seq<T>>, r: nat, m: nat, n: nat) returns (i: nat)
    requires m <= |buckets| && n <= |RoundUpTo(buckets, r, m)|
    ensures i <= m && RoundUpTo(buckets, r, m)[..n] == RoundUpTo(buckets, r, i)
  {
    if n == |RoundUpTo(buckets, r, m)| {
      i := m;
    } else {
      i := PrefixOfRound(buckets, r, m - 1, n);
      var before := RoundUpTo(buckets, r, m - 1);
      assert n <= |before|;
    }
  }

  // In every prefix, each key has a prefix of its bucket, and two keys whose buckets are not used up
  // differ by at most one.
  lemma PrefixIsBalanced<T, K>(buckets: seq<seq<T>>, key: T -> K, keys: seq<K>, n: nat, a: nat, b: nat)
    requires Keyed(buckets, key, keys) && a < |keys| && b < |keys| && n <= |Interleave(buckets)|
    ensures var p := Interleave(buckets)[..n];
      var x, y := Of(p, key, keys[a]), Of(p, key, keys[b]);
      && x <= buckets[a] && y <= buckets[b]
      && (|x| < |buckets[a]| && |y| < |buckets[b]| ==> -1 <= |x| - |y| <= 1)
  {
    var r, i := PrefixOfRounds(buckets, Longest(buckets), n);
    HasHad(buckets, key, keys, r, i, a);
    HasHad(buckets, key, keys, r, i, b);
  }

  // After r rounds and i buckets of the next one.
  lemma HasHad<T, K>(buckets: seq<seq<T>>, key: T -> K, keys: seq<K>, r: nat, i: nat, j: nat)
    requires Keyed(buckets, key, keys) && j < |keys| && i <= |buckets|
    ensures Of(Rounds(buckets, r) + RoundUpTo(buckets, r, i), key, keys[j]) == Upto(buckets[j], if j < i then r + 1 else r)
  {
    OfRounds(buckets, key, keys, r, j);
    OfPrefix(buckets, key, keys, r, i, j);
  }

  // Nothing is lost and nothing is invented: each key gets its whole bucket, in order.
  lemma InterleaveKeepsBuckets<T, K>(buckets: seq<seq<T>>, key: T -> K, keys: seq<K>, j: nat)
    requires Keyed(buckets, key, keys) && j < |keys|
    ensures Of(Interleave(buckets), key, keys[j]) == buckets[j]
  {
    OfRounds(buckets, key, keys, Longest(buckets), j);
    assert |buckets[j]| <= Longest(buckets);
  }

  // ---- groups ----

  // The training items of one family, in order.
  function Group(items: seq<Item>, f: Family): seq<Item> {
    if items == [] then []
    else
      var last := items[|items| - 1];
      Group(items[..|items| - 1], f) + (if last.split == "train" && FamilyOf(last) == f then [last] else [])
  }

  // The families of the training items, in order of first appearance.
  function Families(items: seq<Item>): seq<Family> {
    if items == [] then []
    else
      var last, before := items[|items| - 1], Families(items[..|items| - 1]);
      if last.split == "train" && FamilyOf(last) !in before then before + [FamilyOf(last)] else before
  }

  predicate HasPrompt(items: seq<Item>, prompt: string) {
    exists i :: 0 <= i < |items| && items[i].prompt == prompt
  }

  // The items whose prompt has not occurred before.
  function Distinct(group: seq<Item>): seq<Item> {
    if group == [] then []
    else
      var last, before := group[|group| - 1], group[..|group| - 1];
      Distinct(before) + (if HasPrompt(before, last.prompt) then [] else [last])
  }

  // _dedupe
  method Dedupe(group: seq<Item>) returns (out: seq<Item>)
    ensures out == Distinct(group)
  {
    var seen: set<string> := {};
    out := [];
    for i := 0 to |group|
      invariant forall p :: p in seen <==> HasPrompt(group[..i], p)
      invariant out == Distinct(group[..i])
    {
      assert group[..i + 1][..i] == group[..i];
      HasPromptStep(group[..i], group[i]);
      assert group[..i + 1] == group[..i] + [group[i]];
      var p := group[i].prompt;
      if p in seen {
        continue;
      }
      seen := seen + {p};
      out := out + [group[i]];
    }
    assert group[..|group|] == group;
  }

  lemma HasPromptStep(items: seq<Item>, item: Item)
    ensures forall p :: HasPrompt(items + [item], p) <==> HasPrompt(items, p) || p == item.prompt
  {
    forall p ensures HasPrompt(items + [item], p) <==> HasPrompt(items, p) || p == item.prompt {
      assert (items + [item])[|items|] == item;
      if HasPrompt(items, p) {
        var i :| 0 <= i < |items| && items[i].prompt == p;
        assert (items + [item])[i].prompt == p;
      }
    }
  }

  // Every prompt of the group is kept exactly once.
  lemma {:induction false} DistinctPrompts(group: seq<Item>)
    ensures forall p :: HasPrompt(Distinct(group), p) <==> HasPrompt(group, p)
    ensures forall i, j :: 0 <= i < j < |Distinct(group)| ==> Distinct(group)[i].prompt != Distinct(group)[j].prompt
    ensures forall x :: x in Distinct(group) ==> x in group
  {
    if group != [] {
      var last, before := group[|group| - 1], group[..|group| - 1];
      assert group == before + [last];
      DistinctPrompts(before);
      HasPromptStep(before, last);
      HasPromptStep(Distinct(before), last);
      var kept := Distinct(before) + (if HasPrompt(before, last.prompt) then [] else [last]);
      assert Distinct(group) == kept;
      if HasPrompt(before, last.prompt) {
        assert kept == Distinct(before);
      }
      forall p ensures HasPrompt(kept, p) <==> HasPrompt(before + [last], p) {
      }
    }
  }

  // ---- buckets ----

  // s[:n]
  function Slice<T>(s: seq<T>, n: int): seq<T> {
    if n >= |s| then s else if n >= 0 then s[..n] else if |s| + n >= 0 then s[..|s| + n] else []
  }

  // It is a beginning of s: its first n members, or all but the last -n.
  lemma SliceIs<T>(s: seq<T>, n: int)
    ensures Slice(s, n) <= s
    ensures n >= 0 ==> |Slice(s, n)| == if n <= |s| then n else |s|
    ensures n < 0 ==> |Slice(s, n)| == if -n <= |s| then |s| + n else 0
  {
  }

  function Ease(x: Item): int {
    -x.difficulty
  }

  function Ranked(group: seq<Item>, preferHard: bool): seq<Item> {
    if preferHard then Sort(Distinct(group), Ease) else Distinct(group)
  }

  function Bucket(items: seq<Item>, f: Family, perFamily: int, preferHard: bool): seq<Item> {
    Slice(Ranked(Group(items, f), preferHard), perFamily)
  }

  function Buckets(items: seq<Item>, fs: seq<Family>, perFamily: int, preferHard: bool): seq<seq<Item>> {
    seq(|fs|, i requires 0 <= i < |fs| => Bucket(items, fs[i], perFamily, preferHard))
  }

  function SelectDiverse(items: seq<Item>, perFamily: int, preferHard: bool): seq<Item> {
    Interleave(Buckets(items, Families(items), perFamily, preferHard))
  }

  // The dict of lists after some items: each family's group, in order of first appearance.
  ghost predicate Grouped(order: seq<Family>, groups: map<Family, seq<Item>>, items: seq<Item>) {
    && order == Families(items)
    && (forall f :: f in groups <==> f in order)
    && forall f :: f in groups ==> groups[f] == Group(items, f)
  }

  lemma GroupedNext(order: seq<Family>, groups: map<Family, seq<Item>>, items: seq<Item>, it: Item)
    requires Grouped(order, groups, items)
    ensures it.split != "train" ==> Grouped(order, groups, items + [it])
    ensures it.split == "train" && FamilyOf(it) in groups ==>
      Grouped(order, groups[FamilyOf(it) := groups[FamilyOf(it)] + [it]], items + [it])
    ensures it.split == "train" && FamilyOf(it) !in groups ==>
      Grouped(order + [FamilyOf(it)], groups[FamilyOf(it) := [it]], items + [it])
  {
    assert (items + [it])[..|items|] == items;
    if FamilyOf(it) !in groups {
      GroupOfUnseen(items, FamilyOf(it));
    }
  }

  method GroupByFamily(items: seq<Item>) returns (order: seq<Family>, groups: map<Family, seq<Item>>)
    ensures order == Families(items)
    ensures forall f :: f in groups <==> f in order
    ensures forall f :: f in groups ==> groups[f] == Group(items, f)
  {
    order, groups := [], map[];
    for i := 0 to |items|
      invariant Grouped(order, groups, items[..i])
    {
      GroupedNext(order, groups, items[..i], items[i]);
      assert items[..i + 1] == items[..i] + [items[i]];
      var it := items[i];
      if it.split != "train" {
        continue;
      }
      var f := FamilyOf(it);
      if f !in groups {
        order := order + [f];
        groups := groups[f := []];
      }
      groups := groups[f := groups[f] + [it]];
    }
    assert items[..|items|] == items;
  }

  lemma {:induction false} GroupOfUnseen(items: seq<Item>, f: Family)
    requires f !in Families(items)
    ensures Group(items, f) == []
  {
    if items != [] {
      GroupOfUnseen(items[..|items| - 1], f);
    }
  }

  lemma BucketsNext(items: seq<Item>, order: seq<Family>, i: nat, perFamily: int, preferHard: bool)
    requires i < |order|
    ensures Buckets(items, order[..i + 1], perFamily, preferHard)
      == Buckets(items, order[..i], perFamily, preferHard) + [Bucket(items, order[i], perFamily, preferHard)]
  {
    assert order[..i + 1] == order[..i] + [order[i]];
  }

  method Select(items: seq<Item>, perFamily: int, preferHard: bool) returns (out: seq<Item>)
    ensures out == SelectDiverse(items, perFamily, preferHard)
  {
    var order, groups := GroupByFamily(items);
    var buckets: seq<seq<Item>> := [];
    for i := 0 to |order|
      invariant buckets == Buckets(items, order[..i], perFamily, preferHard)
    {
      assert order[i] in order;
      var uniq := Dedupe(groups[order[i]]);
      if preferHard {
        uniq := Sort(uniq, Ease);
      }
      assert uniq == Ranked(Group(items, order[i]), preferHard);
      BucketsNext(items, order, i, perFamily, preferHard);
      buckets := buckets + [Slice(uniq, perFamily)];
    }
    assert order[..|order|] == order;
    out := PopRounds(buckets);
  }

  // ---- what a selection is ----

  lemma {:induction false} GroupMembers(items: seq<Item>, f: Family)
    ensures forall x :: x in Group(items, f) <==> x in items && x.split == "train" && FamilyOf(x) == f
  {
    if items != [] {
      var last, before := items[|items| - 1], items[..|items| - 1];
      assert items == before + [last];
      GroupMembers(before, f);
    }
  }

  lemma {:induction false} FamiliesDistinct(items: seq<Item>)
    ensures forall i, j :: 0 <= i < j < |Families(items)| ==> Families(items)[i] != Families(items)[j]
  {
    if items != [] {
      FamiliesDistinct(items[..|items| - 1]);
    }
  }

  lemma RankedMembers(group: seq<Item>, preferHard: bool)
    ensures forall x :: x in Ranked(group, preferHard) <==> x in Distinct(group)
  {
    SortIsStable(Distinct(group), Ease, 0);
    assert forall x :: x in Ranked(group, preferHard) <==> x in multiset(Ranked(group, preferHard));
  }

  lemma BucketMembers(items: seq<Item>, f: Family, perFamily: int, preferHard: bool)
    ensures forall x :: x in Bucket(items, f, perFamily, preferHard) ==>
      x in items && x.split == "train" && FamilyOf(x) == f
  {
    RankedMembers(Group(items, f), preferHard);
    DistinctPrompts(Group(items, f));
    GroupMembers(items, f);
    assert forall x :: x in Bucket(items, f, perFamily, preferHard) ==> x in Ranked(Group(items, f), preferHard);
  }

  lemma BucketsAreKeyed(items: seq<Item>, perFamily: int, preferHard: bool)
    ensures Keyed(Buckets(items, Families(items), perFamily, preferHard), FamilyOf, Families(items))
  {
    var fs := Families(items);
    FamiliesDistinct(items);
    forall i, x | 0 <= i < |fs| && x in Buckets(items, fs, perFamily, preferHard)[i] ensures FamilyOf(x) == fs[i] {
      BucketMembers(items, fs[i], perFamily, preferHard);
    }
  }

  // The selected items of a family are its bucket, in the bucket's order.
  lemma FamilyGetsItsBucket(items: seq<Item>, perFamily: int, preferHard: bool, f: Family)
    requires f in Families(items)
    ensures Of(SelectDiverse(items, perFamily, preferHard), FamilyOf, f) == Bucket(items, f, perFamily, preferHard)
  {
    var fs := Families(items);
    BucketsAreKeyed(items, perFamily, preferHard);
    var j :| 0 <= j < |fs| && fs[j] == f;
    InterleaveKeepsBuckets(Buckets(items, fs, perFamily, preferHard), FamilyOf, fs, j);
  }

  // However far the selection has been followed, two families that still have items to come have had
  // the same number of items, give or take one.
  lemma SelectionIsBalanced(items: seq<Item>, perFamily: int, preferHard: bool, n: nat, f: Family, g: Family)
    requires f in Families(items) && g in Families(items)
    requires n <= |SelectDiverse(items, perFamily, preferHard)|
    ensures var p := SelectDiverse(items, perFamily, preferHard)[..n];
      var x, y := |Of(p, FamilyOf, f)|, |Of(p, FamilyOf, g)|;
      x < |Bucket(items, f, perFamily, preferHard)| && y < |Bucket(items, g, perFamily, preferHard)| ==> -1 <= x - y <= 1
  {
    var fs := Families(items);
    BucketsAreKeyed(items, perFamily, preferHard);
    var a :| 0 <= a < |fs| && fs[a] == f;
    var b :| 0 <= b < |fs| && fs[b] == g;
    PrefixIsBalanced(Buckets(items, fs, perFamily, preferHard), FamilyOf, fs, n, a, b);
  }

  // A bucket has distinct prompts and at most perFamily items; harder items come first, and no item
  // left out for space is harder than one that is in.
  lemma BucketHasTheHardest(items: seq<Item>, f: Family, perFamily: nat)
    ensures var bucket, all := Bucket(items, f, perFamily, true), Distinct(Group(items, f));
      && |bucket| == (if |all| < perFamily then |all| else perFamily)
      && (forall i, j :: 0 <= i < j < |bucket| ==> bucket[i].difficulty >= bucket[j].difficulty)
      && exists rest: seq<Item> :: multiset(bucket) + multiset(rest) == multiset(all)
           && forall x, y :: x in bucket && y in rest ==> x.difficulty >= y.difficulty
  {
    var all := Distinct(Group(items, f));
    SortIsStable(all, Ease, 0);
    SortLength(all, Ease);
    var rest := TopOfSorted(Sort(all, Ease), perFamily);
  }

  // Without the preference a bucket has the first perFamily distinct items as they come.
  lemma BucketAsTheyCome(items: seq<Item>, f: Family, perFamily: nat)
    ensures var bucket, all := Bucket(items, f, perFamily, false), Distinct(Group(items, f));
      bucket <= all && |bucket| == if |all| < perFamily then |all| else perFamily
  {
    SliceIs(Distinct(Group(items, f)), perFamily);
  }

  lemma TopOfSorted(ranked: seq<Item>, n: nat) returns (rest: seq<Item>)
    requires Sorted(ranked, Ease)
    ensures multiset(Slice(ranked, n)) + multiset(rest) == multiset(ranked)
    ensures forall i, j :: 0 <= i < j < |Slice(ranked, n)| ==> Slice(ranked, n)[i].difficulty >= Slice(ranked, n)[j].difficulty
    ensures forall x, y :: x in Slice(ranked, n) && y in rest ==> x.difficulty >= y.difficulty
  {
    var top := Slice(ranked, n);
    rest := ranked[|top|..];
    assert ranked == top + rest;
    forall i, j | 0 <= i < j < |ranked| ensures ranked[i].difficulty >= ranked[j].difficulty {
      assert Ease(ranked[i]) <= Ease(ranked[j]);
    }
    forall x, y | x in top && y in rest ensures x.difficulty >= y.difficulty {
      var i :| 0 <= i < |top| && top[i] == x;
      var j :| 0 <= j < |rest| && rest[j] == y;
      assert ranked[i] == x && ranked[|top| + j] == y;
    }
  }

  lemma SortLength<T>(s: seq<T>, key: T -> int)
    ensures |Sort(s, key)| == |s|
  {
    SortIsStable(s, key, 0);
    assert |multiset(Sort(s, key))| == |multiset(s)|;
  }
}
