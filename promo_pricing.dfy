/** The promotion aggregator of src/contexts/CartContext.jsx: promoted entries are grouped
    by `category-size`, each group buys `floor(total / required)` bundles at a fixed price,
    and the leftover units are charged at the regular price of the group's first entries. */
module PromoPricing {
  import opened Wrappers
  import opened Seqs
  import opened CartItems

  /** One entry of the `promoGroups` dictionary. */
  datatype PromoGroup = PromoGroup(key: string, promotion: Promotion, totalQuantity: int, items: seq<LineItem>)

  function Min(a: int, b: int): int { if a <= b then a else b }

  lemma Distribute(a: int, b: int, p: int)
    ensures a * p + b * p == (a + b) * p
  {
  }

  // ---------------------------------------------------------------------------
  // Grouping
  // ---------------------------------------------------------------------------

  /** The position of the group with the given key, if there is one (`promoGroups[key]`). */
  function IndexOfKey(gs: seq<PromoGroup>, key: string): (r: Option<nat>)
    ensures r.Some? ==> r.value < |gs| && gs[r.value].key == key
    ensures r.None? ==> forall j :: 0 <= j < |gs| ==> gs[j].key != key
  {
    if |gs| == 0 then None
    else if gs[0].key == key then Some(0)
    else match IndexOfKey(gs[1..], key)
      case None => None
      case Some(j) => Some(j + 1)
  }

  /** One step of the `forEach` that fills `promoGroups`. */
  function AddToGroups(gs: seq<PromoGroup>, x: LineItem): seq<PromoGroup>
  {
    if x.promotion.None? then gs
    else
      var key := GroupKey(x);
      match IndexOfKey(gs, key)
      case None => gs + [PromoGroup(key, x.promotion.value, x.quantity, [x])]
      case Some(j) => gs[j := Bumped(gs[j], x)]
  }

  /** The groups, in order of first appearance (the order of Object.values). */
  function Groups(items: seq<LineItem>): seq<PromoGroup>
  {
    if |items| == 0 then [] else AddToGroups(Groups(items[..|items| - 1]), items[|items| - 1])
  }

  /** The promoted entries with the given key, in cart order. */
  function Members(items: seq<LineItem>, key: string): seq<LineItem>
  {
    if |items| == 0 then []
    else
      var init := Members(items[..|items| - 1], key);
      var x := items[|items| - 1];
      if Promoted(x) && GroupKey(x) == key then init + [x] else init
  }

  lemma {:induction false} MembersElements(items: seq<LineItem>, key: string)
    ensures forall y :: y in Members(items, key) <==> y in items && Promoted(y) && GroupKey(y) == key
  {
    if |items| > 0 {
      MembersElements(items[..|items| - 1], key);
      assert items == items[..|items| - 1] + [items[|items| - 1]];
    }
  }

  predicate KeysDistinct(gs: seq<PromoGroup>)
  {
    forall j, k :: 0 <= j < k < |gs| ==> gs[j].key != gs[k].key
  }

  /** A group holds exactly the promoted entries with its key, in cart order, their summed
      quantity, and its first member's promotion. */
  ghost predicate GroupExact(items: seq<LineItem>, g: PromoGroup)
  {
    && g.items == Members(items, g.key)
    && |g.items| > 0
    && g.totalQuantity == TotalItems(g.items)
    && g.items[0].promotion == Some(g.promotion)
  }

  ghost predicate Covers(items: seq<LineItem>, gs: seq<PromoGroup>)
  {
    forall x :: x in items && Promoted(x) ==> exists j :: 0 <= j < |gs| && gs[j].key == GroupKey(x)
  }

  lemma {:induction false} MembersNone(items: seq<LineItem>, key: string)
    requires forall y :: y in items && Promoted(y) ==> GroupKey(y) != key
    ensures Members(items, key) == []
  {
    if |items| > 0 {
      assert forall y :: y in items[..|items| - 1] ==> y in items;
      MembersNone(items[..|items| - 1], key);
    }
  }

  /** What the grouping guarantees: one group per key, each exact, and every promoted entry
      in some group. */
  ghost predicate GroupsOf(items: seq<LineItem>, gs: seq<PromoGroup>)
  {
    && KeysDistinct(gs)
    && (forall j :: 0 <= j < |gs| ==> GroupExact(items, gs[j]))
    && Covers(items, gs)
  }

  lemma MembersAppend(items: seq<LineItem>, x: LineItem, key: string)
    ensures Members(items + [x], key) ==
      if Promoted(x) && GroupKey(x) == key then Members(items, key) + [x] else Members(items, key)
  {
    assert (items + [x])[..|items|] == items;
  }

  /** A group whose key differs from the new entry's is still exact. */
  lemma GroupExactOther(items: seq<LineItem>, g: PromoGroup, x: LineItem)
    requires GroupExact(items, g)
    requires !Promoted(x) || GroupKey(x) != g.key
    ensures GroupExact(items + [x], g)
  {
    MembersAppend(items, x, g.key);
  }

  lemma GroupsStepUnpromoted(items: seq<LineItem>, gs: seq<PromoGroup>, x: LineItem)
    requires GroupsOf(items, gs)
    requires !Promoted(x)
    ensures GroupsOf(items + [x], gs)
  {
    forall j | 0 <= j < |gs| ensures GroupExact(items + [x], gs[j]) {
      GroupExactOther(items, gs[j], x);
    }
    forall y | y in items + [x] && Promoted(y)
      ensures exists j :: 0 <= j < |gs| && gs[j].key == GroupKey(y)
    {
      assert y in items;
    }
  }

  /** A promoted entry whose key has no group yet forms a group of its own. */
  lemma NewGroupExact(items: seq<LineItem>, gs: seq<PromoGroup>, x: LineItem)
    requires Covers(items, gs)
    requires Promoted(x) && IndexOfKey(gs, GroupKey(x)).None?
    ensures GroupExact(items + [x], PromoGroup(GroupKey(x), x.promotion.value, x.quantity, [x]))
  {
    var key := GroupKey(x);
    MembersAppend(items, x, key);
    SumAppendOne([], x);
    forall y | y in items && Promoted(y) ensures GroupKey(y) != key {
      var k :| 0 <= k < |gs| && gs[k].key == GroupKey(y);
    }
    MembersNone(items, key);
    assert [] + [x] == [x];
  }

  lemma GroupsStepNew(items: seq<LineItem>, gs: seq<PromoGroup>, x: LineItem)
    requires GroupsOf(items, gs)
    requires Promoted(x) && IndexOfKey(gs, GroupKey(x)).None?
    ensures GroupsOf(items + [x], gs + [PromoGroup(GroupKey(x), x.promotion.value, x.quantity, [x])])
  {
    var g := PromoGroup(GroupKey(x), x.promotion.value, x.quantity, [x]);
    NewGroupExact(items, gs, x);
    ExactAfterAppend(items, gs, x, g);
    NewKeyDistinct(gs, g);
    CoversAfterAppend(items, gs, x, g);
  }

  lemma ExactAfterAppend(items: seq<LineItem>, gs: seq<PromoGroup>, x: LineItem, g: PromoGroup)
    requires forall j :: 0 <= j < |gs| ==> GroupExact(items, gs[j]) && gs[j].key != GroupKey(x)
    requires GroupExact(items + [x], g)
    ensures forall j :: 0 <= j < |gs + [g]| ==> GroupExact(items + [x], (gs + [g])[j])
  {
    forall j | 0 <= j < |gs + [g]| ensures GroupExact(items + [x], (gs + [g])[j]) {
      if j < |gs| {
        GroupExactOther(items, gs[j], x);
      }
    }
  }

  lemma NewKeyDistinct(gs: seq<PromoGroup>, g: PromoGroup)
    requires KeysDistinct(gs)
    requires forall j :: 0 <= j < |gs| ==> gs[j].key != g.key
    ensures KeysDistinct(gs + [g])
  {
  }

  lemma CoversAfterAppend(items: seq<LineItem>, gs: seq<PromoGroup>, x: LineItem, g: PromoGroup)
    requires Covers(items, gs) && g.key == GroupKey(x)
    ensures Covers(items + [x], gs + [g])
  {
    var gs' := gs + [g];
    forall y | y in items + [x] && Promoted(y)
      ensures exists j :: 0 <= j < |gs'| && gs'[j].key == GroupKey(y)
    {
      if y == x {
        assert gs'[|gs|].key == GroupKey(y);
      } else {
        assert y in items;
        var j :| 0 <= j < |gs| && gs[j].key == GroupKey(y);
        assert gs'[j].key == GroupKey(y);
      }
    }
  }

  function Bumped(g: PromoGroup, x: LineItem): PromoGroup
  {
    g.(totalQuantity := g.totalQuantity + x.quantity, items := g.items + [x])
  }

  lemma BumpedExact(items: seq<LineItem>, g: PromoGroup, x: LineItem)
    requires GroupExact(items, g)
    requires Promoted(x) && g.key == GroupKey(x)
    ensures GroupExact(items + [x], Bumped(g, x))
  {
    MembersAppend(items, x, g.key);
    SumAppendOne(g.items, x);
    assert (g.items + [x])[0] == g.items[0];
  }

  lemma GroupsStepExisting(items: seq<LineItem>, gs: seq<PromoGroup>, x: LineItem, j: nat)
    requires GroupsOf(items, gs)
    requires Promoted(x) && j < |gs| && gs[j].key == GroupKey(x)
    ensures GroupsOf(items + [x], gs[j := Bumped(gs[j], x)])
  {
    var gs' := gs[j := Bumped(gs[j], x)];
    assert forall k :: 0 <= k < |gs| ==> gs'[k].key == gs[k].key;
    ExactAfterBump(items, gs, x, j, gs');
    CoversAfterBump(items, gs, x, j);
  }

  lemma ExactAfterBump(items: seq<LineItem>, gs: seq<PromoGroup>, x: LineItem, j: nat, gs': seq<PromoGroup>)
    requires KeysDistinct(gs) && forall k :: 0 <= k < |gs| ==> GroupExact(items, gs[k])
    requires Promoted(x) && j < |gs| && gs[j].key == GroupKey(x)
    requires gs' == gs[j := Bumped(gs[j], x)]
    ensures forall k :: 0 <= k < |gs'| ==> GroupExact(items + [x], gs'[k])
  {
    forall k | 0 <= k < |gs'| ensures GroupExact(items + [x], gs'[k]) {
      if k == j {
        BumpedExact(items, gs[j], x);
      } else {
        GroupExactOther(items, gs[k], x);
      }
    }
  }

  lemma CoversAfterBump(items: seq<LineItem>, gs: seq<PromoGroup>, x: LineItem, j: nat)
    requires Covers(items, gs)
    requires j < |gs| && gs[j].key == GroupKey(x)
    ensures Covers(items + [x], gs[j := Bumped(gs[j], x)])
  {
    var gs' := gs[j := Bumped(gs[j], x)];
    forall y | y in items + [x] && Promoted(y)
      ensures exists k :: 0 <= k < |gs'| && gs'[k].key == GroupKey(y)
    {
      if y == x {
        assert gs'[j].key == GroupKey(y);
      } else {
        assert y in items;
        var k :| 0 <= k < |gs| && gs[k].key == GroupKey(y);
        assert gs'[k].key == GroupKey(y);
      }
    }
  }

  lemma GroupsStep(items: seq<LineItem>, gs: seq<PromoGroup>, x: LineItem)
    requires GroupsOf(items, gs)
    ensures GroupsOf(items + [x], AddToGroups(gs, x))
  {
    if Promoted(x) {
      match IndexOfKey(gs, GroupKey(x))
      case None => GroupsStepNew(items, gs, x);
      case Some(j) => GroupsStepExisting(items, gs, x, j);
    } else {
      GroupsStepUnpromoted(items, gs, x);
    }
  }

  /** Groups(items) has the shape GroupsOf describes. */
  lemma {:induction false} GroupsCorrect(items: seq<LineItem>)
    ensures GroupsOf(items, Groups(items))
  {
    if |items| > 0 {
      var init := items[..|items| - 1];
      GroupsCorrect(init);
      assert items == init + [items[|items| - 1]];
      GroupsStep(init, Groups(init), items[|items| - 1]);
    }
  }

  /** The forEach over the cart that builds `promoGroups` (lines 117-130 and 171-184). */
  method CollectPromoGroups(items: seq<LineItem>) returns (groups: seq<PromoGroup>)
    ensures groups == Groups(items)
    ensures GroupsOf(items, groups)
  {
    groups := [];
    var i := 0;
    while i < |items|
      invariant 0 <= i <= |items|
      invariant groups == Groups(items[..i])
    {
      var item := items[i];
      assert items[..i + 1] == items[..i] + [item];
      ghost var expected := AddToGroups(groups, item);
      if item.promotion.Some? {
        var key := GroupKey(item);
        var at := IndexOfKey(groups, key);
        if at.None? {
          groups := groups + [PromoGroup(key, item.promotion.value, 0, [])];
          at := Some(|groups| - 1);
        }
        var g := groups[at.value];
        groups := groups[at.value := g.(totalQuantity := g.totalQuantity + item.quantity, items := g.items + [item])];
        assert [] + [item] == [item];
      }
      assert groups == expected;
      i := i + 1;
    }
    assert items[..i] == items;
    GroupsCorrect(items);
  }

  // ---------------------------------------------------------------------------
  // Walking units from the front of a group
  // ---------------------------------------------------------------------------

  /** The regular price of the first `n` units of `items`, taking `min(quantity, remaining)`
      from each entry in turn and stopping once nothing remains. */
  function FrontPrice(items: seq<LineItem>, n: int): int
    decreases |items|
  {
    if |items| == 0 || n <= 0 then 0
    else
      var use := Min(items[0].quantity, n);
      use * items[0].price + FrontPrice(items[1..], n - use)
  }

  /** The number of units that walk takes. */
  function FrontUnits(items: seq<LineItem>, n: int): int
    decreases |items|
  {
    if |items| == 0 || n <= 0 then 0
    else
      var use := Min(items[0].quantity, n);
      use + FrontUnits(items[1..], n - use)
  }

  /** With non-negative quantities the walk takes exactly `n` units whenever there are that many. */
  lemma {:induction false} FrontUnitsExact(items: seq<LineItem>, n: int)
    requires forall x :: x in items ==> x.quantity >= 0
    requires 0 <= n <= TotalItems(items)
    ensures FrontUnits(items, n) == n
    decreases |items|
  {
    if |items| > 0 && n > 0 {
      SumOverCons(items, Quantity);
      assert forall x :: x in items[1..] ==> x in items;
      SumOverNonNegative(items[1..], Quantity);
      FrontUnitsExact(items[1..], n - Min(items[0].quantity, n));
    } else if |items| == 0 {
      assert TotalItems(items) == 0;
    }
  }

  /** Where every entry has the same unit price `p`, the first `n` units cost `n * p`. */
  lemma {:induction false} FrontPriceUniform(items: seq<LineItem>, n: int, p: int)
    requires forall x :: x in items ==> x.quantity >= 0 && x.price == p
    requires 0 <= n <= TotalItems(items)
    ensures FrontPrice(items, n) == n * p
    decreases |items|
  {
    if |items| > 0 && n > 0 {
      SumOverCons(items, Quantity);
      assert forall x :: x in items[1..] ==> x in items;
      SumOverNonNegative(items[1..], Quantity);
      var use := Min(items[0].quantity, n);
      FrontPriceUniform(items[1..], n - use, p);
      assert FrontPrice(items, n) == use * p + FrontPrice(items[1..], n - use);
      Distribute(use, n - use, p);
    } else if |items| == 0 {
      assert TotalItems(items) == 0;
    }
  }

  lemma {:induction false} SubtotalUniform(items: seq<LineItem>, p: int)
    requires forall x :: x in items ==> x.price == p
    ensures Subtotal(items) == TotalItems(items) * p
  {
    if |items| > 0 {
      var init := items[..|items| - 1];
      assert forall x :: x in init ==> x in items;
      SubtotalUniform(init, p);
      Distribute(TotalItems(init), items[|items| - 1].quantity, p);
    }
  }

  /** The unit-consuming loops of lines 142-148 and 198-204. `remaining` is what is left of
      `n` when the loop stops; it reaches 0 whenever the entries hold `n` units. */
  method ConsumeFront(items: seq<LineItem>, n: int) returns (price: int, remaining: int)
    ensures price == FrontPrice(items, n)
    ensures remaining == n - FrontUnits(items, n)
    ensures (forall x :: x in items ==> x.quantity >= 0) && 0 <= n <= TotalItems(items) ==> remaining == 0
  {
    price, remaining := 0, n;
    var i := 0;
    while i < |items|
      invariant 0 <= i <= |items|
      invariant price + FrontPrice(items[i..], remaining) == FrontPrice(items, n)
      invariant n - remaining + FrontUnits(items[i..], remaining) == FrontUnits(items, n)
    {
      if remaining <= 0 {
        break;
      }
      assert items[i..][1..] == items[i + 1..];
      var quantityToUse := Min(items[i].quantity, remaining);
      price := price + quantityToUse * items[i].price;
      remaining := remaining - quantityToUse;
      i := i + 1;
    }
    if (forall x :: x in items ==> x.quantity >= 0) && 0 <= n <= TotalItems(items) {
      FrontUnitsExact(items, n);
    }
  }

  // ---------------------------------------------------------------------------
  // Per-group pricing
  // ---------------------------------------------------------------------------

  /** `Math.floor(totalQuantity / requiredQuantity)`; the divisor is at least 1, where
      Dafny's division is the floor. */
  function Sets(g: PromoGroup): int { g.totalQuantity / Required(g.promotion) }

  /** The regular price of the `sets * required` units that form bundles. */
  function QualifyingRegular(g: PromoGroup): int
  {
    if Sets(g) > 0 then FrontPrice(g.items, Sets(g) * Required(g.promotion)) else 0
  }

  /** What the bundles cost. */
  function QualifyingPromo(g: PromoGroup): int
  {
    if Sets(g) > 0 then Sets(g) * BundlePrice(g.promotion) else 0
  }

  /** The group's saving, floored at 0. */
  function GroupDiscount(g: PromoGroup): (r: int)
    ensures r >= 0
    ensures Sets(g) <= 0 ==> r == 0
    ensures r >= QualifyingRegular(g) - QualifyingPromo(g)
  {
    if Sets(g) > 0 then
      var d := QualifyingRegular(g) - QualifyingPromo(g);
      if d > 0 then d else 0
    else 0
  }

  /** What the group costs after the promotion: bundles plus the leftover units at their
      regular price, or everything at the regular price when no bundle forms. */
  function GroupPromoTotal(g: PromoGroup): int
  {
    if Sets(g) > 0 then
      var remainingItems := g.totalQuantity % Required(g.promotion);
      QualifyingPromo(g) + (if remainingItems > 0 then FrontPrice(g.items, remainingItems) else 0)
    else Subtotal(g.items)
  }

  function GroupSubtotal(g: PromoGroup): int { Subtotal(g.items) }

  // ---------------------------------------------------------------------------
  // Cart-level pricing
  // ---------------------------------------------------------------------------

  /** calculatePromoDiscount: the sum of the group savings, forced to 0 when the bundles
      together cost more than the regular price of the units they cover. */
  function PromoDiscount(items: seq<LineItem>): (r: int)
    ensures r >= 0
    ensures SumOver(Groups(items), QualifyingPromo) > SumOver(Groups(items), QualifyingRegular) ==> r == 0
    ensures SumOver(Groups(items), QualifyingPromo) <= SumOver(Groups(items), QualifyingRegular) ==>
      r == SumOver(Groups(items), GroupDiscount)
  {
    var gs := Groups(items);
    SumOverNonNegative(gs, GroupDiscount);
    if SumOver(gs, QualifyingPromo) > SumOver(gs, QualifyingRegular) then 0
    else SumOver(gs, GroupDiscount)
  }

  /** calculatePromoTotal: every group at its promoted price, then every unpromoted entry
      at its regular price. */
  function PromoTotal(items: seq<LineItem>): int
  {
    SumOver(Groups(items), GroupPromoTotal) + Subtotal(Filter(items, Unpromoted))
  }

  /** calculateTotal(includeDiscount). */
  function CalculateTotal(items: seq<LineItem>, includeDiscount: bool): int
  {
    if includeDiscount then PromoTotal(items) else Subtotal(items)
  }

  /** calculatePromoDiscount: collect the groups, total them, then apply the clamp of
      lines 159-161. */
  method ComputePromoDiscount(items: seq<LineItem>) returns (discount: int)
    ensures discount == PromoDiscount(items)
    ensures discount >= 0
  {
    var groups := CollectPromoGroups(items);
    var totalDiscount, totalPromoPrice, totalRegularPrice := SumGroupDiscounts(groups);
    if totalPromoPrice > totalRegularPrice {
      totalDiscount := 0;
    }
    discount := totalDiscount;
  }

  /** The loop of lines 132-157: the savings, bundle prices and regular prices, summed over
      the groups. */
  method SumGroupDiscounts(groups: seq<PromoGroup>) returns (totalDiscount: int, totalPromoPrice: int, totalRegularPrice: int)
    ensures totalDiscount == SumOver(groups, GroupDiscount)
    ensures totalPromoPrice == SumOver(groups, QualifyingPromo)
    ensures totalRegularPrice == SumOver(groups, QualifyingRegular)
  {
    totalDiscount, totalPromoPrice, totalRegularPrice := 0, 0, 0;
    var j := 0;
    while j < |groups|
      invariant 0 <= j <= |groups|
      invariant totalDiscount == SumOver(groups[..j], GroupDiscount)
      invariant totalPromoPrice == SumOver(groups[..j], QualifyingPromo)
      invariant totalRegularPrice == SumOver(groups[..j], QualifyingRegular)
    {
      var saving, promoForSets, regularForQualifying := DiscountGroup(groups[j]);
      totalPromoPrice := totalPromoPrice + promoForSets;
      totalRegularPrice := totalRegularPrice + regularForQualifying;
      totalDiscount := totalDiscount + saving;
      SumOverPrefix(groups, j, GroupDiscount);
      SumOverPrefix(groups, j, QualifyingPromo);
      SumOverPrefix(groups, j, QualifyingRegular);
      j := j + 1;
    }
    assert groups[..j] == groups;
  }

  /** The body of the group loop of lines 133-156: one group's saving, bundle price and
      regular price of the bundled units (all 0 when no bundle forms). */
  method DiscountGroup(group: PromoGroup) returns (saving: int, promoForSets: int, regularForQualifying: int)
    ensures saving == GroupDiscount(group) && saving >= 0
    ensures promoForSets == QualifyingPromo(group)
    ensures regularForQualifying == QualifyingRegular(group)
  {
    saving, promoForSets, regularForQualifying := 0, 0, 0;
    var requiredQuantity := Required(group.promotion);
    var promoPrice := BundlePrice(group.promotion);
    var qualifyingSets := group.totalQuantity / requiredQuantity;
    if qualifyingSets > 0 {
      var regular, _ := ConsumeFront(group.items, qualifyingSets * requiredQuantity);
      regularForQualifying := regular;
      promoForSets := qualifyingSets * promoPrice;
      var d := regularForQualifying - promoForSets;
      saving := if d > 0 then d else 0;
    }
  }

  /** The body of the group loop of lines 186-211: one group's promoted price. */
  method PriceGroup(group: PromoGroup) returns (total: int)
    ensures total == GroupPromoTotal(group)
  {
    total := 0;
    var requiredQuantity := Required(group.promotion);
    var promoPrice := BundlePrice(group.promotion);
    var qualifyingSets := group.totalQuantity / requiredQuantity;
    if qualifyingSets > 0 {
      total := total + qualifyingSets * promoPrice;
      var remainingItems := group.totalQuantity % requiredQuantity;
      if remainingItems > 0 {
        var remainderPrice, _ := ConsumeFront(group.items, remainingItems);
        total := total + remainderPrice;
      }
    } else {
      var k := 0;
      while k < |group.items|
        invariant 0 <= k <= |group.items|
        invariant total == Subtotal(group.items[..k])
      {
        assert group.items[..k + 1][..k] == group.items[..k];
        total := total + group.items[k].price * group.items[k].quantity;
        k := k + 1;
      }
      assert group.items[..k] == group.items;
    }
  }

  /** The loop of lines 213-217: the unpromoted entries at their regular price. */
  method SumUnpromoted(items: seq<LineItem>) returns (total: int)
    ensures total == Subtotal(Filter(items, Unpromoted))
  {
    total := 0;
    var i := 0;
    while i < |items|
      invariant 0 <= i <= |items|
      invariant total == Subtotal(Filter(items[..i], Unpromoted))
    {
      UnpromotedStep(items, i);
      if items[i].promotion.None? {
        total := total + items[i].price * items[i].quantity;
      }
      i := i + 1;
    }
    assert items[..i] == items;
  }

  lemma UnpromotedStep(items: seq<LineItem>, i: nat)
    requires i < |items|
    ensures Subtotal(Filter(items[..i + 1], Unpromoted)) ==
      Subtotal(Filter(items[..i], Unpromoted)) + (if items[i].promotion.None? then LineCost(items[i]) else 0)
  {
    FilterStep(items[..i + 1], Unpromoted);
    assert items[..i + 1][..i] == items[..i];
    if items[i].promotion.None? {
      SumAppendOne(Filter(items[..i], Unpromoted), items[i]);
    }
  }

  /** The loops of lines 186-217: the groups, then the unpromoted entries. */
  method ComputePromoTotal(items: seq<LineItem>) returns (total: int)
    ensures total == PromoTotal(items)
  {
    var totalPromoPrice := 0;
    var groups := CollectPromoGroups(items);
    var j := 0;
    while j < |groups|
      invariant 0 <= j <= |groups|
      invariant totalPromoPrice == SumOver(groups[..j], GroupPromoTotal)
    {
      var groupTotal := PriceGroup(groups[j]);
      totalPromoPrice := totalPromoPrice + groupTotal;
      assert groups[..j + 1][..j] == groups[..j];
      j := j + 1;
    }
    assert groups[..j] == groups;
    var unpromoted := SumUnpromoted(items);
    totalPromoPrice := totalPromoPrice + unpromoted;
    total := totalPromoPrice;
  }

  // ---------------------------------------------------------------------------
  // Properties of the pricing
  // ---------------------------------------------------------------------------

  /** The groups and the unpromoted entries together account for the whole subtotal. */
  lemma {:induction false} SubtotalPartition(items: seq<LineItem>)
    ensures Subtotal(items) == SumOver(Groups(items), GroupSubtotal) + Subtotal(Filter(items, Unpromoted))
  {
    if |items| > 0 {
      var init := items[..|items| - 1];
      var x := items[|items| - 1];
      var gs := Groups(init);
      SubtotalPartition(init);
      assert init + [x] == items;
      SumAppendOne(init, x);
      FilterStep(items, Unpromoted);
      if Promoted(x) {
        match IndexOfKey(gs, GroupKey(x))
        case None =>
          var g := PromoGroup(GroupKey(x), x.promotion.value, x.quantity, [x]);
          SumOverAppend(gs, [g], GroupSubtotal);
          SumAppendOne([], x);
          assert SumOver([g], GroupSubtotal) == GroupSubtotal(g) by { assert [g][..0] == []; }
        case Some(j) =>
          SumOverUpdate(gs, j, Bumped(gs[j], x), GroupSubtotal);
          SumAppendOne(gs[j].items, x);
      } else {
        SumAppendOne(Filter(init, Unpromoted), x);
      }
    }
  }

  lemma MultiplyMonotone(a: int, b: int, c: int)
    requires a > 0 && b <= c
    ensures a * b <= a * c
  {
  }

  /** Bundles no dearer than their units cost no more than the units they cover. */
  lemma BundleBound(sets: int, r: int, b: int, p: int)
    requires sets > 0 && b <= r * p
    ensures sets * b <= (sets * r) * p
  {
    MultiplyMonotone(sets, b, r * p);
    assert sets * (r * p) == (sets * r) * p;
  }

  /** In a group whose entries share one unit price, and whose bundle is no dearer than the
      units it replaces, the group's saving is exactly what its promoted price takes off
      its regular price. */
  lemma GroupSaving(g: PromoGroup)
    requires |g.items| > 0
    requires forall x :: x in g.items ==> x.quantity >= 0 && x.price == g.items[0].price
    requires g.totalQuantity == TotalItems(g.items)
    requires BundlePrice(g.promotion) <= Required(g.promotion) * g.items[0].price
    ensures QualifyingPromo(g) <= QualifyingRegular(g)
    ensures GroupDiscount(g) == GroupSubtotal(g) - GroupPromoTotal(g)
  {
    SumOverNonNegative(g.items, Quantity);
    SubtotalUniform(g.items, g.items[0].price);
    if Sets(g) > 0 {
      GroupSavingBundles(g, g.items[0].price);
    }
  }

  /** The case where at least one bundle forms. */
  lemma GroupSavingBundles(g: PromoGroup, p: int)
    requires Sets(g) > 0
    requires forall x :: x in g.items ==> x.quantity >= 0 && x.price == p
    requires g.totalQuantity == TotalItems(g.items)
    requires GroupSubtotal(g) == g.totalQuantity * p
    requires BundlePrice(g.promotion) <= Required(g.promotion) * p
    ensures QualifyingPromo(g) <= QualifyingRegular(g)
    ensures GroupDiscount(g) == GroupSubtotal(g) - GroupPromoTotal(g)
  {
    var t, r, sets, b := g.totalQuantity, Required(g.promotion), Sets(g), BundlePrice(g.promotion);
    SetsSplit(t, r);
    var u, rem := sets * r, t % r;
    FrontPriceUniform(g.items, u, p);
    assert QualifyingRegular(g) == u * p;
    assert QualifyingPromo(g) == sets * b;
    BundleBound(sets, r, b, p);
    if rem > 0 {
      FrontPriceUniform(g.items, rem, p);
    }
    assert GroupPromoTotal(g) == sets * b + rem * p;
    Distribute(u, rem, p);
  }

  /** Whole bundles and the remainder make up the group's units. */
  lemma SetsSplit(t: int, r: int)
    requires r >= 1 && t / r > 0
    ensures t == (t / r) * r + t % r
    ensures 0 <= t % r <= t && 0 < (t / r) * r <= t
  {
  }

  /** Where every promotion group has one unit price and no bundle costs more than the units
      it replaces, calculateTotal(true) is getSubtotal() minus calculatePromoDiscount(). */
  lemma {:induction false} PromoTotalIsSubtotalLessDiscount(items: seq<LineItem>)
    requires forall x :: x in items ==> x.quantity >= 0
    requires forall x, y :: x in items && y in items && Promoted(x) && Promoted(y) && GroupKey(x) == GroupKey(y) ==>
      x.price == y.price
    requires forall x :: x in items && Promoted(x) ==>
      BundlePrice(x.promotion.value) <= Required(x.promotion.value) * x.price
    ensures PromoTotal(items) == Subtotal(items) - PromoDiscount(items)
    ensures PromoTotal(items) <= Subtotal(items)
  {
    var gs := Groups(items);
    GroupsCorrect(items);
    forall g | g in gs
      ensures QualifyingPromo(g) <= QualifyingRegular(g)
      ensures GroupDiscount(g) == GroupSubtotal(g) - GroupPromoTotal(g)
    {
      var j :| 0 <= j < |gs| && gs[j] == g;
      assert GroupExact(items, g);
      MembersElements(items, g.key);
      assert g.items[0] in g.items;
      GroupSaving(g);
    }
    SumOverMonotone(gs, QualifyingPromo, QualifyingRegular);
    SumOverDifference(gs, GroupDiscount, GroupSubtotal, GroupPromoTotal);
    SumOverNonNegative(gs, GroupDiscount);
    SubtotalPartition(items);
  }

  lemma {:induction false} GroupsOfUnpromoted(items: seq<LineItem>)
    requires forall x :: x in items ==> !Promoted(x)
    ensures Groups(items) == []
  {
    if |items| > 0 {
      assert forall x :: x in items[..|items| - 1] ==> x in items;
      GroupsOfUnpromoted(items[..|items| - 1]);
      assert !Promoted(items[|items| - 1]);
    }
  }

  /** A cart without promoted entries has no discount and costs its subtotal. */
  lemma PricingWithoutPromotions(items: seq<LineItem>)
    requires forall x :: x in items ==> !Promoted(x)
    ensures PromoDiscount(items) == 0
    ensures PromoTotal(items) == Subtotal(items)
  {
    GroupsOfUnpromoted(items);
    FilterAll(items, Unpromoted);
  }

  /** The worked example: a 3-for-500 promotion and seven units at 200 give a subtotal of
      1400, a total of 1200 and a discount of 200. */
  lemma BundleExample()
    ensures var promo := Promotion("p", "milk-teas", "reg", "", 3, 500, 700, true, "3 for 5");
            var item := LineItem("t", "Milk Tea", "", "milk-teas", "reg", 200, 7, Some(promo));
            Subtotal([item]) == 1400 && PromoTotal([item]) == 1200 && PromoDiscount([item]) == 200
  {
    var promo := Promotion("p", "milk-teas", "reg", "", 3, 500, 700, true, "3 for 5");
    var item := LineItem("t", "Milk Tea", "", "milk-teas", "reg", 200, 7, Some(promo));
    var g := PromoGroup(GroupKey(item), promo, 7, [item]);
    assert [item][..0] == [];
    assert Groups([item]) == [g];
    assert Subtotal([item]) == 1400;
    assert [g][..0] == [];
    assert Sets(g) == 2;
    assert [item][1..] == [];
    assert FrontPrice([item], 6) == 1200;
    assert FrontPrice([item], 1) == 200;
    assert Filter([item], Unpromoted) == [];
  }

  function SingleGroup(x: LineItem): PromoGroup
    requires Promoted(x)
  {
    PromoGroup(GroupKey(x), x.promotion.value, x.quantity, [x])
  }

  lemma TwoGroups(x: LineItem, y: LineItem)
    requires Promoted(x) && Promoted(y) && GroupKey(x) != GroupKey(y)
    ensures Groups([x, y]) == [SingleGroup(x), SingleGroup(y)]
  {
    assert [x, y][..1] == [x];
    assert [x][..0] == [];
    assert Groups([x]) == [SingleGroup(x)];
    assert IndexOfKey([SingleGroup(x)], GroupKey(y)) == None;
  }

  /** A group of one entry whose quantity is exactly one bundle. */
  lemma OneBundleGroup(x: LineItem)
    requires Promoted(x) && x.quantity == Required(x.promotion.value)
    ensures QualifyingRegular(SingleGroup(x)) == x.quantity * x.price
    ensures QualifyingPromo(SingleGroup(x)) == BundlePrice(x.promotion.value)
    ensures GroupPromoTotal(SingleGroup(x)) == BundlePrice(x.promotion.value)
  {
    var g := SingleGroup(x);
    assert Sets(g) == 1;
    assert Sets(g) * Required(g.promotion) == x.quantity;
    assert [x][1..] == [];
    assert FrontPrice([x], x.quantity) == x.quantity * x.price + FrontPrice([], 0);
  }

  /** The discount floor is applied across all groups together: a group whose bundle costs
      more than its units is masked by a group with a saving, and the reported discount is
      the other group's saving alone. */
  lemma AggregateClampMasksLosingGroup()
    ensures var cheap := Promotion("a", "tea", "reg", "", 2, 300, 300, true, "2 for 3");
            var dear := Promotion("b", "soda", "reg", "", 2, 500, 500, true, "2 for 5");
            var items := [LineItem("t", "Tea", "", "tea", "reg", 200, 2, Some(cheap)),
                          LineItem("s", "Soda", "", "soda", "reg", 200, 2, Some(dear))];
            PromoDiscount(items) == 100 && PromoTotal(items) == 800 && Subtotal(items) == 800
  {
    var cheap := Promotion("a", "tea", "reg", "", 2, 300, 300, true, "2 for 3");
    var dear := Promotion("b", "soda", "reg", "", 2, 500, 500, true, "2 for 5");
    var x := LineItem("t", "Tea", "", "tea", "reg", 200, 2, Some(cheap));
    var y := LineItem("s", "Soda", "", "soda", "reg", 200, 2, Some(dear));
    assert GroupKey(x) != GroupKey(y) by { assert GroupKey(x)[0] != GroupKey(y)[0]; }
    TwoGroups(x, y);
    var gx, gy := SingleGroup(x), SingleGroup(y);
    OneBundleGroup(x);
    OneBundleGroup(y);
    assert GroupDiscount(gx) == 100 && GroupDiscount(gy) == 0;
    SumOverTwo(gx, gy, QualifyingPromo);
    SumOverTwo(gx, gy, QualifyingRegular);
    SumOverTwo(gx, gy, GroupDiscount);
    SumOverTwo(gx, gy, GroupPromoTotal);
    TwoPromotedEntries(x, y);
  }

  lemma SumOverTwo(a: PromoGroup, b: PromoGroup, f: PromoGroup -> int)
    ensures SumOver([a, b], f) == f(a) + f(b)
  {
    SumOverCons([a, b], f);
    assert [a, b][1..] == [b];
    assert [b][..0] == [];
  }

  /** A cart of two promoted entries has no unpromoted part. */
  lemma TwoPromotedEntries(x: LineItem, y: LineItem)
    requires Promoted(x) && Promoted(y)
    ensures Filter([x, y], Unpromoted) == []
    ensures Subtotal([x, y]) == LineCost(x) + LineCost(y)
  {
    var items := [x, y];
    FilterStep(items, Unpromoted);
    assert items[..1] == [x];
    FilterStep([x], Unpromoted);
    SumOverCons(items, LineCost);
    assert items[1..] == [y];
    assert [y][..0] == [];
  }
}
