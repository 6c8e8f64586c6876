/** Generic list combinators (filter, sum) with the facts the cart and order views rely on. */
module Seqs {
  import opened Wrappers

  /** The elements of `s` that satisfy `p`, in their original order (Array.prototype.filter).
      Defined on the last element so that a loop over a prefix unfolds it in one step. */
  function Filter<T(!new)>(s: seq<T>, p: T -> bool): (r: seq<T>)
    ensures |r| <= |s|
    ensures forall x :: x in r <==> x in s && p(x)
  {
    if |s| == 0 then []
    else
      var init := Filter(s[..|s| - 1], p);
      assert s == s[..|s| - 1] + [s[|s| - 1]];
      if p(s[|s| - 1]) then init + [s[|s| - 1]] else init
  }

  /** One unfolding of Filter at the last element. */
  lemma FilterStep<T(!new)>(s: seq<T>, p: T -> bool)
    requires |s| > 0
    ensures Filter(s, p) == if p(s[|s| - 1]) then Filter(s[..|s| - 1], p) + [s[|s| - 1]] else Filter(s[..|s| - 1], p)
  {
  }

  /** Filtering distributes over concatenation: survivors keep their relative order. */
  lemma {:induction false} FilterAppend<T(!new)>(s: seq<T>, t: seq<T>, p: T -> bool)
    ensures Filter(s + t, p) == Filter(s, p) + Filter(t, p)
    decreases |t|
  {
    if |t| == 0 {
      assert s + t == s;
    } else {
      var t' := t[..|t| - 1];
      assert (s + t)[..|s + t| - 1] == s + t';
      FilterAppend(s, t', p);
    }
  }

  /** A filter that keeps everything is the identity. */
  lemma {:induction false} FilterAll<T(!new)>(s: seq<T>, p: T -> bool)
    requires forall x :: x in s ==> p(x)
    ensures Filter(s, p) == s
  {
    if |s| > 0 {
      FilterAll(s[..|s| - 1], p);
      assert s == s[..|s| - 1] + [s[|s| - 1]];
    }
  }

  /** The sum of `f` over the elements of `s` (Array.prototype.reduce with `+` from 0). */
  function SumOver<T>(s: seq<T>, f: T -> int): int
  {
    if |s| == 0 then 0 else SumOver(s[..|s| - 1], f) + f(s[|s| - 1])
  }

  lemma {:induction false} SumOverAppend<T>(s: seq<T>, t: seq<T>, f: T -> int)
    ensures SumOver(s + t, f) == SumOver(s, f) + SumOver(t, f)
    decreases |t|
  {
    if |t| == 0 {
      assert s + t == s;
    } else {
      var t' := t[..|t| - 1];
      assert (s + t)[..|s + t| - 1] == s + t';
      SumOverAppend(s, t', f);
    }
  }

  lemma SumOverPrefix<T>(s: seq<T>, j: int, f: T -> int)
    requires 0 <= j < |s|
    ensures SumOver(s[..j + 1], f) == SumOver(s[..j], f) + f(s[j])
  {
    assert s[..j + 1][..j] == s[..j];
  }

  /** Summing from the front gives the same value as summing from the back. */
  lemma SumOverCons<T>(s: seq<T>, f: T -> int)
    requires |s| > 0
    ensures SumOver(s, f) == f(s[0]) + SumOver(s[1..], f)
  {
    assert s == [s[0]] + s[1..];
    SumOverAppend([s[0]], s[1..], f);
  }

  lemma {:induction false} SumOverNonNegative<T>(s: seq<T>, f: T -> int)
    requires forall x :: x in s ==> f(x) >= 0
    ensures SumOver(s, f) >= 0
  {
    if |s| > 0 {
      SumOverNonNegative(s[..|s| - 1], f);
    }
  }

  lemma {:induction false} SumOverMonotone<T>(s: seq<T>, f: T -> int, g: T -> int)
    requires forall x :: x in s ==> f(x) <= g(x)
    ensures SumOver(s, f) <= SumOver(s, g)
  {
    if |s| > 0 {
      SumOverMonotone(s[..|s| - 1], f, g);
    }
  }

  /** Sums are linear: if `f` is pointwise `g - h`, its sum is the difference of theirs. */
  lemma {:induction false} SumOverDifference<T>(s: seq<T>, f: T -> int, g: T -> int, h: T -> int)
    requires forall x :: x in s ==> f(x) == g(x) - h(x)
    ensures SumOver(s, f) == SumOver(s, g) - SumOver(s, h)
  {
    if |s| > 0 {
      SumOverDifference(s[..|s| - 1], f, g, h);
    }
  }

  /** Replacing one element changes the sum by the difference of the two values. */
  lemma {:induction false} SumOverUpdate<T>(s: seq<T>, j: nat, y: T, f: T -> int)
    requires j < |s|
    ensures SumOver(s[j := y], f) == SumOver(s, f) - f(s[j]) + f(y)
  {
    var t := s[j := y];
    assert s == s[..j] + [s[j]] + s[j + 1..];
    assert t == s[..j] + [y] + s[j + 1..];
    SumOverAppend(s[..j] + [s[j]], s[j + 1..], f);
    SumOverAppend(s[..j], [s[j]], f);
    SumOverAppend(s[..j] + [y], s[j + 1..], f);
    SumOverAppend(s[..j], [y], f);
    assert SumOver([s[j]], f) == f(s[j]) by { assert [s[j]][..0] == []; }
    assert SumOver([y], f) == f(y) by { assert [y][..0] == []; }
  }

  /** Sum of a filter plus the sum of its complement is the sum of the whole. */
  lemma {:induction false} SumOverPartition<T(!new)>(s: seq<T>, p: T -> bool, f: T -> int)
    ensures SumOver(Filter(s, p), f) + SumOver(Filter(s, x => !p(x)), f) == SumOver(s, f)
  {
    if |s| > 0 {
      var init := s[..|s| - 1];
      var last := s[|s| - 1];
      SumOverPartition(init, p, f);
      SumOverAppend(Filter(init, p), [last], f);
      SumOverAppend(Filter(init, x => !p(x)), [last], f);
      assert SumOver([last], f) == f(last) by { assert [last][..0] == []; }
    }
  }

  /** Array.prototype.map. */
  function MapSeq<A, B>(s: seq<A>, f: A -> B): (r: seq<B>)
    ensures |r| == |s|
    ensures forall i :: 0 <= i < |s| ==> r[i] == f(s[i])
  {
    if |s| == 0 then [] else MapSeq(s[..|s| - 1], f) + [f(s[|s| - 1])]
  }

  /** A filter keeps a sub-multiset of its input. */
  lemma {:induction false} FilterSubMultiset<T(!new)>(s: seq<T>, p: T -> bool)
    ensures multiset(Filter(s, p)) <= multiset(s)
  {
    if |s| > 0 {
      FilterSubMultiset(s[..|s| - 1], p);
      assert s == s[..|s| - 1] + [s[|s| - 1]];
    }
  }

  lemma MapSeqAppend<A, B>(s: seq<A>, t: seq<A>, f: A -> B)
    ensures MapSeq(s + t, f) == MapSeq(s, f) + MapSeq(t, f)
  {
  }

  /** A filter that keeps nothing is empty. */
  lemma {:induction false} FilterNone<T(!new)>(s: seq<T>, p: T -> bool)
    requires forall x :: x in s ==> !p(x)
    ensures Filter(s, p) == []
  {
    if |s| > 0 {
      assert s[|s| - 1] in s;
      FilterNone(s[..|s| - 1], p);
    }
  }

  /** Array.prototype.findIndex (and find), with "not found" as None. */
  function FirstIndex<T>(s: seq<T>, p: T -> bool): (r: Option<nat>)
    ensures r.None? <==> forall i :: 0 <= i < |s| ==> !p(s[i])
    ensures r.Some? ==> r.value < |s| && p(s[r.value]) && forall i :: 0 <= i < r.value ==> !p(s[i])
  {
    if |s| == 0 then None
    else if p(s[0]) then Some(0)
    else match FirstIndex(s[1..], p)
      case None => None
      case Some(j) => Some(j + 1)
  }

  /** Two lists on which `p` holds at the same positions give the same first index. */
  lemma {:induction false} FirstIndexSame<T>(s: seq<T>, t: seq<T>, p: T -> bool)
    requires |s| == |t|
    requires forall i :: 0 <= i < |s| ==> p(s[i]) == p(t[i])
    ensures FirstIndex(s, p) == FirstIndex(t, p)
  {
    if |s| > 0 && !p(s[0]) {
      FirstIndexSame(s[1..], t[1..], p);
    }
  }

  /** Appending an element only matters when nothing earlier matches. */
  lemma {:induction false} FirstIndexAppend<T>(s: seq<T>, x: T, p: T -> bool)
    ensures FirstIndex(s + [x], p) ==
      if FirstIndex(s, p).Some? then FirstIndex(s, p) else if p(x) then Some(|s|) else None
  {
    if |s| > 0 && !p(s[0]) {
      FirstIndexAppend(s[1..], x, p);
      assert (s + [x])[1..] == s[1..] + [x];
    }
  }
}
