/** `Array.from(new Map(list.map(x => [key(x), x])).values())`: one element per key, the
    last element given for that key, at the position where the key was first set. */
module JsMaps {
  import opened Wrappers
  import opened Seqs

  /** The position of the first element with key `k`. */
  function IndexOfKey<T>(s: seq<T>, key: T -> string, k: string): (r: Option<nat>)
    ensures r.None? <==> forall j :: 0 <= j < |s| ==> key(s[j]) != k
    ensures r.Some? ==> r.value < |s| && key(s[r.value]) == k &&
                        forall j :: 0 <= j < r.value ==> key(s[j]) != k
  {
    if |s| == 0 then None
    else if key(s[0]) == k then Some(0)
    else match IndexOfKey(s[1..], key, k)
      case None => None
      case Some(j) => Some(j + 1)
  }

  /** `map.set(key(x), x)` for every element in turn, then the map's values in order. */
  function DedupeByKey<T>(xs: seq<T>, key: T -> string): (r: seq<T>)
  {
    if |xs| == 0 then []
    else
      var init := DedupeByKey(xs[..|xs| - 1], key);
      var x := xs[|xs| - 1];
      match IndexOfKey(init, key, key(x))
      case None => init + [x]
      case Some(j) => init[j := x]
  }

  /** The keys of a list, in order. */
  function Keys<T>(s: seq<T>, key: T -> string): (r: seq<string>)
    ensures |r| == |s|
    ensures forall j :: 0 <= j < |s| ==> r[j] == key(s[j])
  {
    MapSeq(s, key)
  }

  /** The distinct strings of `s` in order of first occurrence. */
  function FirstOccurrences(s: seq<string>): (r: seq<string>)
    ensures forall k :: k in r <==> k in s
  {
    if |s| == 0 then []
    else
      var init := FirstOccurrences(s[..|s| - 1]);
      assert forall k :: k in s <==> k in s[..|s| - 1] || k == s[|s| - 1];
      if s[|s| - 1] in init then init else init + [s[|s| - 1]]
  }

  predicate NoDuplicates(s: seq<string>)
  {
    forall a, b :: 0 <= a < b < |s| ==> s[a] != s[b]
  }

  lemma {:induction false} FirstOccurrencesDistinct(s: seq<string>)
    ensures NoDuplicates(FirstOccurrences(s))
  {
    if |s| > 0 {
      FirstOccurrencesDistinct(s[..|s| - 1]);
    }
  }

  /** The element the map holds for `k`: the last element with that key. */
  function LastWithKey<T>(xs: seq<T>, key: T -> string, k: string): (r: Option<T>)
    ensures r.None? <==> forall j :: 0 <= j < |xs| ==> key(xs[j]) != k
    ensures r.Some? ==> exists j :: 0 <= j < |xs| && xs[j] == r.value && key(r.value) == k
  {
    if |xs| == 0 then None
    else
      var x := xs[|xs| - 1];
      if key(x) == k then Some(x)
      else
        var r := LastWithKey(xs[..|xs| - 1], key, k);
        assert forall j :: 0 <= j < |xs| - 1 ==> xs[..|xs| - 1][j] == xs[j];
        r
  }

  /** The keys of the de-duplicated list are the input keys in order of first occurrence,
      so no key appears twice and every input key is represented. */
  lemma {:induction false} DedupeKeys<T>(xs: seq<T>, key: T -> string)
    ensures Keys(DedupeByKey(xs, key), key) == FirstOccurrences(Keys(xs, key))
  {
    if |xs| > 0 {
      var xs' := xs[..|xs| - 1];
      var init := DedupeByKey(xs', key);
      var x := xs[|xs| - 1];
      DedupeKeys(xs', key);
      KeysSnoc(xs, key);
      match IndexOfKey(init, key, key(x))
      case None =>
        assert key(x) !in Keys(init, key);
        assert Keys(init + [x], key) == Keys(init, key) + [key(x)];
      case Some(j) =>
        KeysUpdate(init, key, j, x);
    }
  }

  lemma KeysSnoc<T>(xs: seq<T>, key: T -> string)
    requires |xs| > 0
    ensures Keys(xs, key) == Keys(xs[..|xs| - 1], key) + [key(xs[|xs| - 1])]
  {
  }

  lemma KeysUpdate<T>(s: seq<T>, key: T -> string, j: nat, x: T)
    requires j < |s| && key(s[j]) == key(x)
    ensures Keys(s[j := x], key) == Keys(s, key)
    ensures key(x) in Keys(s, key)
  {
    assert Keys(s, key)[j] == key(x);
  }

  /** No two de-duplicated elements share a key. */
  lemma DedupeUnique<T>(xs: seq<T>, key: T -> string)
    ensures NoDuplicates(Keys(DedupeByKey(xs, key), key))
  {
    DedupeKeys(xs, key);
    FirstOccurrencesDistinct(Keys(xs, key));
  }

  /** Every de-duplicated element is the last input element with its key. */
  lemma {:induction false} DedupeKeepsLast<T>(xs: seq<T>, key: T -> string)
    ensures forall j :: 0 <= j < |DedupeByKey(xs, key)| ==>
      LastWithKey(xs, key, key(DedupeByKey(xs, key)[j])) == Some(DedupeByKey(xs, key)[j])
  {
    if |xs| > 0 {
      var xs' := xs[..|xs| - 1];
      var init := DedupeByKey(xs', key);
      var x := xs[|xs| - 1];
      DedupeKeepsLast(xs', key);
      DedupeUnique(xs', key);
      var r := DedupeByKey(xs, key);
      forall j | 0 <= j < |r| ensures LastWithKey(xs, key, key(r[j])) == Some(r[j]) {
        match IndexOfKey(init, key, key(x))
        case None =>
          if j < |init| {
            assert r[j] == init[j];
            assert key(init[j]) != key(x);
          }
        case Some(i) =>
          if j != i {
            assert r[j] == init[j];
            assert Keys(init, key)[j] != Keys(init, key)[i];
          }
      }
    }
  }

  /** Distinct keys in, the same list out. */
  lemma {:induction false} DedupeDistinctIdentity<T>(xs: seq<T>, key: T -> string)
    requires NoDuplicates(Keys(xs, key))
    ensures DedupeByKey(xs, key) == xs
  {
    if |xs| > 0 {
      var xs' := xs[..|xs| - 1];
      var x := xs[|xs| - 1];
      DistinctInit(xs, key);
      DedupeDistinctIdentity(xs', key);
      assert IndexOfKey(xs', key, key(x)).None?;
      assert xs == xs' + [x];
    }
  }

  lemma DistinctInit<T>(xs: seq<T>, key: T -> string)
    requires |xs| > 0 && NoDuplicates(Keys(xs, key))
    ensures NoDuplicates(Keys(xs[..|xs| - 1], key))
    ensures forall j :: 0 <= j < |xs| - 1 ==> key(xs[j]) != key(xs[|xs| - 1])
  {
    var ks := Keys(xs, key);
    forall j | 0 <= j < |xs| - 1 ensures key(xs[j]) != key(xs[|xs| - 1]) {
      assert ks[j] != ks[|xs| - 1];
    }
    var init := Keys(xs[..|xs| - 1], key);
    forall a, b | 0 <= a < b < |init| ensures init[a] != init[b] {
      assert ks[a] != ks[b];
    }
  }

  /** Every input key is represented in the de-duplicated list. */
  lemma DedupeCovers<T>(xs: seq<T>, key: T -> string, x: T)
    requires x in xs
    ensures exists j :: 0 <= j < |DedupeByKey(xs, key)| && key(DedupeByKey(xs, key)[j]) == key(x)
  {
    var r := DedupeByKey(xs, key);
    DedupeKeys(xs, key);
    var i :| 0 <= i < |xs| && xs[i] == x;
    assert Keys(xs, key)[i] == key(x);
    assert key(x) in Keys(r, key);
    var j :| 0 <= j < |r| && Keys(r, key)[j] == key(x);
    assert key(r[j]) == key(x);
  }

  /** The de-duplicated list holds only input elements. */
  lemma DedupeSubset<T>(xs: seq<T>, key: T -> string, j: int)
    requires 0 <= j < |DedupeByKey(xs, key)|
    ensures DedupeByKey(xs, key)[j] in xs
  {
    DedupeKeepsLast(xs, key);
  }

  /** What the de-duplication guarantees: keys are distinct, every input key is represented,
      and only input elements are kept. */
  lemma DedupeSound<T>(xs: seq<T>, key: T -> string)
    ensures var r := DedupeByKey(xs, key);
      && (forall a, b :: 0 <= a < b < |r| ==> key(r[a]) != key(r[b]))
      && (forall x :: x in xs ==> exists j :: 0 <= j < |r| && key(r[j]) == key(x))
      && (forall y :: y in r ==> y in xs)
  {
    var r := DedupeByKey(xs, key);
    DedupeUnique(xs, key);
    forall a, b | 0 <= a < b < |r| ensures key(r[a]) != key(r[b]) {
      assert Keys(r, key)[a] != Keys(r, key)[b];
    }
    forall x | x in xs ensures exists j :: 0 <= j < |r| && key(r[j]) == key(x) {
      DedupeCovers(xs, key, x);
    }
    forall y | y in r ensures y in xs {
      var j :| 0 <= j < |r| && r[j] == y;
      DedupeSubset(xs, key, j);
    }
  }

  /** Two elements with one key leave only the later one. */
  lemma SameKeyPair<T>(x: T, y: T, key: T -> string)
    requires key(x) == key(y)
    ensures DedupeByKey([x, y], key) == [y]
  {
    assert [x, y][..1] == [x];
    assert [x][..0] == [];
    assert DedupeByKey([x], key) == [x];
  }
}
