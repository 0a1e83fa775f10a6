// A dict that counts, as the loops d[key] = d.get(key, 0) + 1 build it.
module Counter {
  // A Python dict: key/value pairs in insertion order, no key twice.
  type Dict = seq<(string, int)>

  predicate HasKey(d: Dict, key: string) {
    d != [] && (d[0].0 == key || HasKey(d[1..], key))
  }

  predicate DistinctKeys(d: Dict) {
    d != [] ==> !HasKey(d[1..], d[0].0) && DistinctKeys(d[1..])
  }

  // d.get(key, 0)
  function Get(d: Dict, key: string): int {
    if d == [] then 0 else if d[0].0 == key then d[0].1 else Get(d[1..], key)
  }

  // d[key] = d.get(key, 0) + 1
  function Bump(d: Dict, key: string): Dict {
    if d == [] then [(key, 1)]
    else if d[0].0 == key then [(key, d[0].1 + 1)] + d[1..]
    else [d[0]] + Bump(d[1..], key)
  }

  lemma {:induction false} BumpGet(d: Dict, key: string, other: string)
    ensures Get(Bump(d, key), other) == Get(d, other) + if other == key then 1 else 0
    decreases |d|
  {
    if d != [] && d[0].0 != key {
      BumpGet(d[1..], key, other);
      assert Bump(d, key)[1..] == Bump(d[1..], key);
    } else if d != [] {
      assert Bump(d, key)[1..] == d[1..];
    }
  }

  function Sum(d: Dict): int {
    if d == [] then 0 else d[0].1 + Sum(d[1..])
  }

  // One more occurrence: one more in all.
  lemma {:induction false} BumpSum(d: Dict, key: string)
    ensures Sum(Bump(d, key)) == Sum(d) + 1
    decreases |d|
  {
    if d == [] {
      assert Bump(d, key)[1..] == [];
    } else if d[0].0 != key {
      BumpSum(d[1..], key);
      assert Bump(d, key)[1..] == Bump(d[1..], key);
    } else {
      assert Bump(d, key)[1..] == d[1..];
    }
  }

  // The key is there afterwards, and no key is there twice.
  lemma {:induction false} BumpKeys(d: Dict, key: string)
    requires DistinctKeys(d)
    ensures DistinctKeys(Bump(d, key))
    ensures forall other :: HasKey(Bump(d, key), other) <==> HasKey(d, other) || other == key
    decreases |d|
  {
    if d == [] {
      assert Bump(d, key)[1..] == [];
    } else if d[0].0 != key {
      BumpKeys(d[1..], key);
      assert Bump(d, key)[1..] == Bump(d[1..], key);
    } else {
      assert Bump(d, key)[1..] == d[1..];
    }
  }
}
