/** The admin order list of src/components/OrdersPanel.jsx: filter by status, search by
    customer, then sort a copy by date or amount. */
module OrdersPanel {
  import opened Wrappers
  import opened Seqs
  import opened JsStrings

  /** The order fields the panel reads; a missing customer field is the empty string. */
  datatype Order = Order(id: string, status: string, customerEmail: string, customerName: string,
                         createdAtSeconds: int, totalAmount: int)

  // ---------------------------------------------------------------------------
  // Filter and search
  // ---------------------------------------------------------------------------

  /** filterOrders: everything for 'all', otherwise the orders with that status. */
  function FilterOrders(orders: seq<Order>, filterStatus: string): (r: seq<Order>)
    ensures filterStatus == "all" ==> r == orders
    ensures filterStatus != "all" ==> forall o :: o in r <==> o in orders && o.status == filterStatus
    ensures multiset(r) <= multiset(orders)
  {
    if filterStatus == "all" then orders
    else
      FilterSubMultiset(orders, (o: Order) => o.status == filterStatus);
      Filter(orders, (o: Order) => o.status == filterStatus)
  }

  /** Filtering keeps the orders' relative order: it distributes over concatenation. */
  lemma FilterOrdersAppend(a: seq<Order>, b: seq<Order>, filterStatus: string)
    ensures FilterOrders(a + b, filterStatus) == FilterOrders(a, filterStatus) + FilterOrders(b, filterStatus)
  {
    if filterStatus != "all" {
      FilterAppend(a, b, (o: Order) => o.status == filterStatus);
    }
  }

  /** The search test: the lower-cased term occurs in the lower-cased email or name. */
  predicate MatchesSearch(o: Order, searchTerm: string)
  {
    Includes(Lower(o.customerEmail), Lower(searchTerm)) || Includes(Lower(o.customerName), Lower(searchTerm))
  }

  /** searchOrders. */
  function SearchOrders(orders: seq<Order>, searchTerm: string): (r: seq<Order>)
    ensures forall o :: o in r <==> o in orders && MatchesSearch(o, searchTerm)
    ensures multiset(r) <= multiset(orders)
  {
    FilterSubMultiset(orders, (o: Order) => MatchesSearch(o, searchTerm));
    Filter(orders, (o: Order) => MatchesSearch(o, searchTerm))
  }

  /** An empty search keeps every order. */
  lemma EmptySearchKeepsAll(orders: seq<Order>)
    ensures SearchOrders(orders, "") == orders
  {
    forall o | o in orders ensures MatchesSearch(o, "") {
      assert StartsWith(Lower(o.customerEmail), Lower(""));
    }
    FilterAll(orders, (o: Order) => MatchesSearch(o, ""));
  }

  // ---------------------------------------------------------------------------
  // Sort
  // ---------------------------------------------------------------------------

  /** The four sort options the panel's select offers. */
  datatype SortKey = Newest | Oldest | Highest | Lowest

  /** The option string, or None for any other value (which leaves the list as it is). */
  function ParseSortOption(sortOption: string): (r: Option<SortKey>)
    ensures r == Some(Newest) <==> sortOption == "newest"
    ensures r == Some(Oldest) <==> sortOption == "oldest"
    ensures r == Some(Highest) <==> sortOption == "highest"
    ensures r == Some(Lowest) <==> sortOption == "lowest"
  {
    if sortOption == "newest" then Some(Newest)
    else if sortOption == "oldest" then Some(Oldest)
    else if sortOption == "highest" then Some(Highest)
    else if sortOption == "lowest" then Some(Lowest)
    else None
  }

  /** The comparator passed to `sort` for each option. */
  function Compare(a: Order, b: Order, key: SortKey): int
  {
    match key
    case Newest => b.createdAtSeconds - a.createdAtSeconds
    case Oldest => a.createdAtSeconds - b.createdAtSeconds
    case Highest => b.totalAmount - a.totalAmount
    case Lowest => a.totalAmount - b.totalAmount
  }

  /** The position an order takes under an option: smaller ranks come first. */
  function Rank(o: Order, key: SortKey): int
  {
    match key
    case Newest => -o.createdAtSeconds
    case Oldest => o.createdAtSeconds
    case Highest => -o.totalAmount
    case Lowest => o.totalAmount
  }

  /** The comparator is the difference of the two ranks. */
  lemma CompareIsRankDifference(a: Order, b: Order, key: SortKey)
    ensures Compare(a, b, key) == Rank(a, key) - Rank(b, key)
  {
  }

  /** Insert `x` after every element of `s` that the comparator does not put after it. */
  function Insert(s: seq<Order>, x: Order, key: SortKey): (r: seq<Order>)
    ensures |r| == |s| + 1
  {
    if |s| == 0 then [x]
    else if Compare(s[|s| - 1], x, key) > 0 then Insert(s[..|s| - 1], x, key) + [s[|s| - 1]]
    else s + [x]
  }

  lemma {:induction false} InsertPermutes(s: seq<Order>, x: Order, key: SortKey)
    ensures multiset(Insert(s, x, key)) == multiset(s) + multiset{x}
  {
    if |s| > 0 {
      assert s == s[..|s| - 1] + [s[|s| - 1]];
      InsertPermutes(s[..|s| - 1], x, key);
    }
  }

  /** The order a stable sort with the option's comparator produces (built by insertion). */
  function InsertionSorted(s: seq<Order>, key: SortKey): (r: seq<Order>)
    ensures |r| == |s|
  {
    if |s| == 0 then []
    else Insert(InsertionSorted(s[..|s| - 1], key), s[|s| - 1], key)
  }

  lemma {:induction false} InsertionSortedPermutes(s: seq<Order>, key: SortKey)
    ensures multiset(InsertionSorted(s, key)) == multiset(s)
  {
    if |s| > 0 {
      assert s == s[..|s| - 1] + [s[|s| - 1]];
      InsertionSortedPermutes(s[..|s| - 1], key);
      InsertPermutes(InsertionSorted(s[..|s| - 1], key), s[|s| - 1], key);
    }
  }

  /** sortOrders: sorted by the option, or left in order for any other option. */
  function SortedBy(orders: seq<Order>, sortOption: string): (r: seq<Order>)
    ensures |r| == |orders|
    ensures multiset(r) == multiset(orders)
    ensures ParseSortOption(sortOption).None? ==> r == orders
  {
    match ParseSortOption(sortOption)
    case None => orders
    case Some(key) =>
      InsertionSortedPermutes(orders, key);
      InsertionSorted(orders, key)
  }

  predicate SortedByRank(s: seq<Order>, key: SortKey)
  {
    forall i, j :: 0 <= i < j < |s| ==> Rank(s[i], key) <= Rank(s[j], key)
  }

  /** Appending an element ranked at least as high as everything keeps a list sorted. */
  lemma AppendKeepsSorted(s: seq<Order>, x: Order, key: SortKey)
    requires SortedByRank(s, key)
    requires forall y :: y in s ==> Rank(y, key) <= Rank(x, key)
    ensures SortedByRank(s + [x], key)
  {
    var t := s + [x];
    forall i, j | 0 <= i < j < |t| ensures Rank(t[i], key) <= Rank(t[j], key) {
      if j == |s| { assert t[i] == s[i]; }
    }
  }

  lemma {:induction false} InsertKeepsSorted(s: seq<Order>, x: Order, key: SortKey)
    requires SortedByRank(s, key)
    ensures SortedByRank(Insert(s, x, key), key)
  {
    if |s| > 0 {
      var last := s[|s| - 1];
      var init := s[..|s| - 1];
      CompareIsRankDifference(last, x, key);
      SortedInit(s, key);
      if Compare(last, x, key) > 0 {
        InsertKeepsSorted(init, x, key);
        InsertBelow(init, x, key, Rank(last, key));
        AppendKeepsSorted(Insert(init, x, key), last, key);
      } else {
        assert s == init + [last];
        AppendKeepsSorted(s, x, key);
      }
    }
  }

  /** Dropping the last element keeps a list sorted, and that element ranks highest. */
  lemma SortedInit(s: seq<Order>, key: SortKey)
    requires SortedByRank(s, key) && |s| > 0
    ensures SortedByRank(s[..|s| - 1], key)
    ensures forall y :: y in s ==> Rank(y, key) <= Rank(s[|s| - 1], key)
  {
    var init := s[..|s| - 1];
    forall i, j | 0 <= i < j < |init| ensures Rank(init[i], key) <= Rank(init[j], key) {
      assert init[i] == s[i] && init[j] == s[j];
    }
  }

  /** Inserting an element keeps every element under a bound that it and the list are under. */
  lemma InsertBelow(s: seq<Order>, x: Order, key: SortKey, bound: int)
    requires forall y :: y in s ==> Rank(y, key) <= bound
    requires Rank(x, key) <= bound
    ensures forall y :: y in Insert(s, x, key) ==> Rank(y, key) <= bound
  {
    InsertPermutes(s, x, key);
    forall y | y in Insert(s, x, key) ensures Rank(y, key) <= bound {
      assert y in multiset(Insert(s, x, key));
    }
  }

  lemma {:induction false} InsertionSortedIsSorted(s: seq<Order>, key: SortKey)
    ensures SortedByRank(InsertionSorted(s, key), key)
  {
    if |s| > 0 {
      InsertionSortedIsSorted(s[..|s| - 1], key);
      InsertKeepsSorted(InsertionSorted(s[..|s| - 1], key), s[|s| - 1], key);
    }
  }

  /** What each option means: newest and highest first, oldest and lowest first. */
  lemma SortOrderMeaning(orders: seq<Order>, sortOption: string, i: int, j: int)
    requires 0 <= i < j < |orders|
    ensures var r := SortedBy(orders, sortOption);
      && (sortOption == "newest" ==> r[i].createdAtSeconds >= r[j].createdAtSeconds)
      && (sortOption == "oldest" ==> r[i].createdAtSeconds <= r[j].createdAtSeconds)
      && (sortOption == "highest" ==> r[i].totalAmount >= r[j].totalAmount)
      && (sortOption == "lowest" ==> r[i].totalAmount <= r[j].totalAmount)
  {
    match ParseSortOption(sortOption)
    case None =>
    case Some(key) => InsertionSortedIsSorted(orders, key);
  }

  /** A list whose orders all tie under the comparator comes back unchanged. */
  lemma {:induction false} SortKeepsTies(orders: seq<Order>, key: SortKey)
    requires forall i, j :: 0 <= i < j < |orders| ==> Rank(orders[i], key) == Rank(orders[j], key)
    ensures InsertionSorted(orders, key) == orders
  {
    if |orders| > 0 {
      var init := orders[..|orders| - 1];
      SortKeepsTies(init, key);
      if |init| > 0 {
        assert Rank(init[|init| - 1], key) == Rank(orders[|orders| - 1], key);
      }
      assert orders == init + [orders[|orders| - 1]];
    }
  }

  /** Insertion moves `x` only past elements ranked strictly above it, so among the elements
      of its own rank it lands after all of them. */
  lemma {:induction false} InsertKeepsRankOrder(s: seq<Order>, x: Order, key: SortKey, p: Order -> bool, k: int)
    requires forall o :: p(o) ==> Rank(o, key) == k
    ensures Filter(Insert(s, x, key), p) == Filter(s, p) + Filter([x], p)
  {
    if |s| > 0 {
      if Compare(s[|s| - 1], x, key) > 0 {
        InsertKeepsRankOrder(s[..|s| - 1], x, key, p, k);
        InsertPastRankOrder(s, x, key, p, k);
      } else {
        FilterAppend(s, [x], p);
      }
    }
  }

  /** One step of the above: `x` moves past a last element ranked above it. */
  lemma InsertPastRankOrder(s: seq<Order>, x: Order, key: SortKey, p: Order -> bool, k: int)
    requires forall o :: p(o) ==> Rank(o, key) == k
    requires |s| > 0 && Compare(s[|s| - 1], x, key) > 0
    requires Filter(Insert(s[..|s| - 1], x, key), p) == Filter(s[..|s| - 1], p) + Filter([x], p)
    ensures Filter(Insert(s, x, key), p) == Filter(s, p) + Filter([x], p)
  {
    var init, last := s[..|s| - 1], s[|s| - 1];
    var fi, fx, fl := Filter(init, p), Filter([x], p), Filter([last], p);
    assert Filter(Insert(s, x, key), p) == fi + fx + fl by {
      InsertPastLast(s, x, key);
      FilterAppend(Insert(init, x, key), [last], p);
    }
    assert Filter(s, p) == fi + fl by {
      assert s == init + [last];
      FilterAppend(init, [last], p);
    }
    assert fx == [] || fl == [] by {
      CompareIsRankDifference(last, x, key);
      FilterSingle(x, p);
      FilterSingle(last, p);
    }
    OneSideEmpty(fi, fx, fl);
  }

  lemma OneSideEmpty(a: seq<Order>, b: seq<Order>, c: seq<Order>)
    requires b == [] || c == []
    ensures a + b + c == a + c + b
  {
  }

  lemma FilterSingle(x: Order, p: Order -> bool)
    ensures Filter([x], p) == if p(x) then [x] else []
  {
    assert [x][..0] == [];
  }

  /** The sort is stable: the orders of any one rank come out in their original relative
      order. */
  lemma {:induction false} SortIsStable(orders: seq<Order>, key: SortKey, p: Order -> bool, k: int)
    requires forall o :: p(o) ==> Rank(o, key) == k
    ensures Filter(InsertionSorted(orders, key), p) == Filter(orders, p)
  {
    if |orders| > 0 {
      var init, last := orders[..|orders| - 1], orders[|orders| - 1];
      assert init + [last] == orders;
      SortIsStable(init, key, p, k);
      InsertKeepsRankOrder(InsertionSorted(init, key), last, key, p, k);
      FilterAppend(init, [last], p);
    }
  }

  /** Stability stated per rank: the orders ranked `k` keep their relative order. */
  lemma SameRankKeepsOrder(orders: seq<Order>, key: SortKey, k: int)
    ensures Filter(InsertionSorted(orders, key), (o: Order) => Rank(o, key) == k) ==
            Filter(orders, (o: Order) => Rank(o, key) == k)
  {
    SortIsStable(orders, key, (o: Order) => Rank(o, key) == k, k);
  }

  /** Where insertion puts `x`: after the last element the comparator does not move past
      it, and before the run of elements it does. */
  lemma {:induction false} InsertPosition(sorted: seq<Order>, j: int, x: Order, key: SortKey)
    requires 0 <= j <= |sorted|
    requires j == 0 || Compare(sorted[j - 1], x, key) <= 0
    requires forall k :: j <= k < |sorted| ==> Compare(sorted[k], x, key) > 0
    ensures Insert(sorted, x, key) == sorted[..j] + [x] + sorted[j..]
    decreases |sorted|
  {
    if j < |sorted| {
      var init, last := sorted[..|sorted| - 1], sorted[|sorted| - 1];
      InsertPastLast(sorted, x, key);
      InsertPosition(init, j, x, key);
      SnocSplit(sorted, j, x);
    } else {
      assert sorted[..j] == sorted;
    }
  }

  /** An element the comparator puts after `x` stays behind it. */
  lemma InsertPastLast(s: seq<Order>, x: Order, key: SortKey)
    requires |s| > 0 && Compare(s[|s| - 1], x, key) > 0
    ensures Insert(s, x, key) == Insert(s[..|s| - 1], x, key) + [s[|s| - 1]]
  {
  }

  lemma SnocSplit(s: seq<Order>, j: int, x: Order)
    requires 0 <= j < |s|
    ensures s[..|s| - 1][..j] + [x] + s[..|s| - 1][j..] + [s[|s| - 1]] == s[..j] + [x] + s[j..]
  {
    assert s[..|s| - 1][..j] == s[..j];
    assert s[..|s| - 1][j..] + [s[|s| - 1]] == s[j..];
  }

  /** A list that agrees with `s` before `j`, holds `x` at `j` and `s` shifted by one after. */
  lemma Spliced(t: seq<Order>, s: seq<Order>, j: int, x: Order)
    requires 0 <= j <= |s| && |t| == |s| + 1
    requires forall k :: 0 <= k < j ==> t[k] == s[k]
    requires t[j] == x
    requires forall k :: j < k < |t| ==> t[k] == s[k - 1]
    ensures t == s[..j] + [x] + s[j..]
  {
  }

  /** One pass of insertion sort: shift the sorted prefix `a[..i]` right until `a[i]` fits. */
  method InsertIntoPrefix(a: array<Order>, i: int, key: SortKey)
    requires 0 <= i < a.Length
    modifies a
    ensures a[..i + 1] == Insert(old(a[..i]), old(a[i]), key)
    ensures a[i + 1..] == old(a[i + 1..])
  {
    ghost var before := a[..];
    ghost var sorted := a[..i];
    var x := a[i];
    var j := i;
    while j > 0 && Compare(a[j - 1], x, key) > 0
      invariant 0 <= j <= i
      invariant forall k :: 0 <= k < j ==> a[k] == sorted[k]
      invariant forall k :: j < k <= i ==> a[k] == sorted[k - 1]
      invariant forall k :: i < k < a.Length ==> a[k] == before[k]
      invariant forall k :: j <= k < i ==> Compare(sorted[k], x, key) > 0
    {
      a[j] := a[j - 1];
      j := j - 1;
    }
    a[j] := x;
    Spliced(a[..i + 1], sorted, j, x);
    InsertPosition(sorted, j, x, key);
    SameSuffix(a[..], before, i);
  }

  lemma SameSuffix(s: seq<Order>, t: seq<Order>, i: int)
    requires 0 <= i < |s| == |t|
    requires forall k :: i < k < |s| ==> s[k] == t[k]
    ensures s[i + 1..] == t[i + 1..]
  {
  }

  /** Sorting one more element is inserting it into the sorted prefix. */
  lemma InsertionSortedStep(s: seq<Order>, i: int, key: SortKey)
    requires 0 <= i < |s|
    ensures InsertionSorted(s[..i + 1], key) == Insert(InsertionSorted(s[..i], key), s[i], key)
  {
    assert s[..i + 1][..i] == s[..i];
  }

  lemma SuffixParts(s: seq<Order>, t: seq<Order>, i: int)
    requires 0 <= i < |s| == |t| && s[i..] == t[i..]
    ensures s[i] == t[i] && s[i + 1..] == t[i + 1..]
  {
    assert s[i] == s[i..][0] == t[i..][0] == t[i];
    assert s[i + 1..] == s[i..][1..] == t[i..][1..] == t[i + 1..];
  }

  /** Sort an array in place with the option's comparator (insertion sort, which is stable
      like the engine's `Array.prototype.sort`). */
  method SortInPlace(a: array<Order>, key: SortKey)
    modifies a
    ensures a[..] == InsertionSorted(old(a[..]), key)
  {
    ghost var original := a[..];
    for i := 0 to a.Length
      invariant a[..i] == InsertionSorted(original[..i], key)
      invariant a[i..] == original[i..]
    {
      InsertionSortedStep(original, i, key);
      SuffixParts(a[..], original, i);
      InsertIntoPrefix(a, i, key);
    }
    assert original[..a.Length] == original;
  }

  /** sortOrders: copy the list, then sort the copy unless the option is unknown. */
  method SortOrders(orders: seq<Order>, sortOption: string) returns (sorted: array<Order>)
    ensures fresh(sorted)
    ensures sorted[..] == SortedBy(orders, sortOption)
  {
    sorted := new Order[|orders|](i requires 0 <= i < |orders| => orders[i]);
    assert sorted[..] == orders;
    match ParseSortOption(sortOption)
    case None =>
    case Some(key) => SortInPlace(sorted, key);
  }

  // ---------------------------------------------------------------------------
  // The pipeline
  // ---------------------------------------------------------------------------

  /** processedOrders: sort(search(filter(orders))). */
  function ProcessOrders(orders: seq<Order>, filterStatus: string, searchTerm: string, sortOption: string): (r: seq<Order>)
    ensures multiset(r) <= multiset(orders)
    ensures forall o :: o in r ==> MatchesSearch(o, searchTerm) && (filterStatus == "all" || o.status == filterStatus)
  {
    var filtered := FilterOrders(orders, filterStatus);
    var found := SearchOrders(filtered, searchTerm);
    var r := SortedBy(found, sortOption);
    assert forall o :: o in r <==> o in found by {
      assert forall o :: o in r <==> o in multiset(r);
    }
    r
  }

  /** Every order that passes the status filter and the search is shown. */
  lemma ProcessKeepsMatches(orders: seq<Order>, filterStatus: string, searchTerm: string, sortOption: string, o: Order)
    requires o in orders && MatchesSearch(o, searchTerm) && (filterStatus == "all" || o.status == filterStatus)
    ensures o in ProcessOrders(orders, filterStatus, searchTerm, sortOption)
  {
    var found := SearchOrders(FilterOrders(orders, filterStatus), searchTerm);
    assert o in found;
    assert o in multiset(SortedBy(found, sortOption));
  }
}
