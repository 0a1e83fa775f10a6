// Python's stable sort by an integer key.
module StableSort {
  import opened PyText

  function Insert<T>(x: T, s: seq<T>, key: T -> int): seq<T> {
    if s == [] || key(x) <= key(s[0]) then [x] + s else [s[0]] + Insert(x, s[1..], key)
  }

  function Sort<T>(s: seq<T>, key: T -> int): seq<T> {
    if s == [] then [] else Insert(s[0], Sort(s[1..], key), key)
  }

  ghost predicate Sorted<T>(s: seq<T>, key: T -> int) {
    forall i, j :: 0 <= i < j < |s| ==> key(s[i]) <= key(s[j])
  }

  // The members with one key, in order.
  function WithKey<T>(s: seq<T>, key: T -> int, k: int): seq<T> {
    if s == [] then [] else (if key(s[0]) == k then [s[0]] else []) + WithKey(s[1..], key, k)
  }

  lemma {:induction false} InsertMembers<T>(x: T, s: seq<T>, key: T -> int)
    ensures multiset(Insert(x, s, key)) == multiset([x] + s)
  {
    if s != [] && key(x) > key(s[0]) {
      assert s == [s[0]] + s[1..];
      InsertMembers(x, s[1..], key);
    }
  }

  lemma {:induction false} InsertAtLeast<T>(x: T, s: seq<T>, key: T -> int, k: int)
    requires key(x) >= k && forall i :: 0 <= i < |s| ==> key(s[i]) >= k
    ensures forall j :: 0 <= j < |Insert(x, s, key)| ==> key(Insert(x, s, key)[j]) >= k
  {
    if s != [] && key(x) > key(s[0]) {
      InsertAtLeast(x, s[1..], key, k);
    }
  }

  lemma {:induction false} InsertSorted<T>(x: T, s: seq<T>, key: T -> int)
    requires Sorted(s, key)
    ensures Sorted(Insert(x, s, key), key)
  {
    if s != [] && key(x) > key(s[0]) {
      InsertSorted(x, s[1..], key);
      InsertAtLeast(x, s[1..], key, key(s[0]));
    }
  }

  lemma {:induction false} InsertStable<T>(x: T, s: seq<T>, key: T -> int, k: int)
    requires Sorted(s, key)
    ensures WithKey(Insert(x, s, key), key, k) == WithKey([x] + s, key, k)
  {
    assert ([x] + s)[1..] == s;
    if s != [] && key(x) > key(s[0]) {
      var rest := Insert(x, s[1..], key);
      InsertStable(x, s[1..], key, k);
      assert ([x] + s[1..])[1..] == s[1..] && ([s[0]] + rest)[1..] == rest;
    }
  }

  // Sorting orders by key, keeps the members and keeps equal keys in their order.
  lemma {:induction false} SortIsStable<T>(s: seq<T>, key: T -> int, k: int)
    ensures Sorted(Sort(s, key), key)
    ensures multiset(Sort(s, key)) == multiset(s)
    ensures WithKey(Sort(s, key), key, k) == WithKey(s, key, k)
  {
    if s != [] {
      SortIsStable(s[1..], key, k);
      InsertMembers(s[0], Sort(s[1..], key), key);
      InsertSorted(s[0], Sort(s[1..], key), key);
      InsertStable(s[0], Sort(s[1..], key), key, k);
      assert s == [s[0]] + s[1..];
      assert ([s[0]] + Sort(s[1..], key))[1..] == Sort(s[1..], key);
    }
  }

  lemma {:induction false} WithKeyMember<T>(s: seq<T>, key: T -> int, k: int)
    ensures forall x :: x in WithKey(s, key, k) <==> x in s && key(x) == k
  {
    if s != [] {
      WithKeyMember(s[1..], key, k);
    }
  }

  lemma WithKeyOfHead<T>(s: seq<T>, key: T -> int)
    ensures s != [] ==> WithKey(s, key, key(s[0])) != []
  {
  }

  // The members with each key are the same, in the same order.
  ghost predicate SameByKey<T>(a: seq<T>, b: seq<T>, key: T -> int) {
    forall k :: WithKey(a, key, k) == WithKey(b, key, k)
  }

  lemma BothEmpty<T>(a: seq<T>, b: seq<T>, key: T -> int)
    requires SameByKey(a, b, key)
    ensures a == [] <==> b == []
  {
    WithKeyOfHead(a, key);
    WithKeyOfHead(b, key);
  }

  lemma SameHead<T>(a: seq<T>, b: seq<T>, key: T -> int)
    requires Sorted(a, key) && Sorted(b, key) && a != [] && b != []
    requires SameByKey(a, b, key)
    ensures a[0] == b[0]
  {
    var k, l := key(a[0]), key(b[0]);
    WithKeyMember(a, key, l);
    WithKeyMember(b, key, l);
    assert b[0] in a;
    WithKeyMember(a, key, k);
    WithKeyMember(b, key, k);
    assert a[0] in b;
    assert a[0] == WithKey(a, key, k)[0] == WithKey(b, key, k)[0] == b[0];
  }

  lemma SameTails<T>(a: seq<T>, b: seq<T>, key: T -> int, k: int)
    requires a != [] && b != [] && a[0] == b[0] && WithKey(a, key, k) == WithKey(b, key, k)
    ensures WithKey(a[1..], key, k) == WithKey(b[1..], key, k)
  {
    var p := if key(a[0]) == k then [a[0]] else [];
    var x, y := WithKey(a[1..], key, k), WithKey(b[1..], key, k);
    assert p + x == p + y;
    assert (p + x)[|p|..] == x && (p + y)[|p|..] == y;
  }

  lemma SameHeadAndTails<T>(a: seq<T>, b: seq<T>, key: T -> int)
    requires Sorted(a, key) && Sorted(b, key) && a != [] && b != []
    requires SameByKey(a, b, key)
    ensures a[0] == b[0] && SameByKey(a[1..], b[1..], key)
  {
    SameHead(a, b, key);
    forall k {
      SameTails(a, b, key, k);
    }
  }

  // Those three facts leave no choice: any stable sorting algorithm gives this result.
  lemma {:induction false} StableSortIsUnique<T>(a: seq<T>, b: seq<T>, key: T -> int)
    requires Sorted(a, key) && Sorted(b, key)
    requires SameByKey(a, b, key)
    ensures a == b
  {
    BothEmpty(a, b, key);
    if a != [] {
      SameHeadAndTails(a, b, key);
      StableSortIsUnique(a[1..], b[1..], key);
      assert a == [a[0]] + a[1..] && b == [b[0]] + b[1..];
    }
  }

  function Find<T>(s: seq<T>, q: T -> bool): Option<T> {
    if s == [] then None else if q(s[0]) then Some(s[0]) else Find(s[1..], q)
  }

  // Among the members with q, one of least key, and the earliest of those.
  function EarliestLeast<T>(s: seq<T>, key: T -> int, q: T -> bool): Option<T> {
    if s == [] then None
    else
      var later := EarliestLeast(s[1..], key, q);
      if q(s[0]) && (later.None? || key(s[0]) <= key(later.value)) then Some(s[0]) else later
  }

  lemma {:induction false} FindInserted<T>(x: T, s: seq<T>, key: T -> int, q: T -> bool)
    requires Sorted(s, key)
    ensures Find(Insert(x, s, key), q) ==
      var r := Find(s, q); if q(x) && (r.None? || key(x) <= key(r.value)) then Some(x) else r
  {
    FindMember(s, q);
    if s == [] || key(x) <= key(s[0]) {
      assert ([x] + s)[1..] == s;
    } else {
      FindInserted(x, s[1..], key, q);
      assert ([s[0]] + Insert(x, s[1..], key))[1..] == Insert(x, s[1..], key);
    }
  }

  lemma {:induction false} FindMember<T>(s: seq<T>, q: T -> bool)
    ensures Find(s, q).Some? ==> Find(s, q).value in s && q(Find(s, q).value)
    ensures Find(s, q).None? ==> forall x :: x in s ==> !q(x)
  {
    if s != [] {
      FindMember(s[1..], q);
    }
  }

  // The first match in the sorted sequence is the earliest match of least key in the given one.
  lemma {:induction false} FindInSorted<T>(s: seq<T>, key: T -> int, q: T -> bool)
    ensures Find(Sort(s, key), q) == EarliestLeast(s, key, q)
  {
    if s != [] {
      FindInSorted(s[1..], key, q);
      SortIsStable(s[1..], key, 0);
      FindInserted(s[0], Sort(s[1..], key), key, q);
    }
  }

  ghost predicate IsEarliestLeast<T>(s: seq<T>, key: T -> int, q: T -> bool, i: nat) {
    && i < |s| && q(s[i])
    && (forall j :: 0 <= j < |s| && q(s[j]) ==> key(s[i]) <= key(s[j]))
    && (forall j :: 0 <= j < i && q(s[j]) ==> key(s[i]) < key(s[j]))
  }

  lemma {:induction false} EarliestLeastAt<T>(s: seq<T>, key: T -> int, q: T -> bool) returns (i: nat)
    ensures EarliestLeast(s, key, q).None? ==> forall j :: 0 <= j < |s| ==> !q(s[j])
    ensures EarliestLeast(s, key, q).Some? ==> IsEarliestLeast(s, key, q, i) && EarliestLeast(s, key, q).value == s[i]
  {
    i := 0;
    if s != [] {
      var k := EarliestLeastAt(s[1..], key, q);
      var later := EarliestLeast(s[1..], key, q);
      assert forall j :: 0 < j < |s| ==> s[j] == s[1..][j - 1];
      if !(q(s[0]) && (later.None? || key(s[0]) <= key(later.value))) && later.Some? {
        i := k + 1;
      }
    }
  }
}
