/** The per-entry promotion hints of the basket view (src/components/ui/CartModal.jsx). The
    view counts every cart entry of the same category and size, promoted or not. */
module CartModal {
  import opened Wrappers
  import opened Seqs
  import opened CartItems
  import opened JsStrings
  import opened PromoPricing
  import Config

  predicate SameSlot(i: LineItem, x: LineItem)
  {
    i.category == x.category && i.size == x.size
  }

  /** The units in the cart with the entry's category and size. */
  function SlotQuantity(cart: seq<LineItem>, x: LineItem): int
  {
    TotalItems(Filter(cart, i => SameSlot(i, x)))
  }

  /** isPromotionApplied(item). */
  predicate IsPromotionApplied(cart: seq<LineItem>, x: LineItem)
  {
    x.promotion.Some? && SlotQuantity(cart, x) >= Required(x.promotion.value)
  }

  /** The text of the hint: `Add N more item(s) to get <description>!`. */
  function EncouragementMessage(remaining: int, description: string): (m: string)
    requires remaining > 0
    ensures StartsWith(m, "Add " + NatToString(remaining) + " more item")
    ensures remaining > 1 <==> StartsWith(m, "Add " + NatToString(remaining) + " more items")
  {
    var head := "Add " + NatToString(remaining) + " more ";
    var noun := if remaining > 1 then "items" else "item";
    var m := head + noun + " to get " + description + "!";
    assert m[..|head| + 4] == head + "item";
    assert m[..|head| + 5] == head + noun[..4] + [m[|head| + 4]];
    m
  }

  /** getPromotionEncouragement(item): a hint only for a promoted entry whose slot falls short. */
  function Encouragement(cart: seq<LineItem>, x: LineItem): (r: Option<string>)
    ensures r.Some? <==> x.promotion.Some? && !IsPromotionApplied(cart, x)
    ensures r.Some? ==>
      var remaining := Required(x.promotion.value) - SlotQuantity(cart, x);
      remaining > 0 && r.value == EncouragementMessage(remaining, x.promotion.value.description)
  {
    if x.promotion.None? then None
    else
      var total := SlotQuantity(cart, x);
      var required := Required(x.promotion.value);
      if total < required then Some(EncouragementMessage(required - total, x.promotion.value.description))
      else None
  }

  /** calculatePromoPriceForItem(item): the bundle charge of the entry's slot. */
  function PromoPriceForItem(cart: seq<LineItem>, x: LineItem): (r: int)
    ensures !IsPromotionApplied(cart, x) ==> r == 0
    ensures IsPromotionApplied(cart, x) ==>
      SlotQuantity(cart, x) / Required(x.promotion.value) >= 1 &&
      r == Config.FixedPrice(Filter(cart, i => SameSlot(i, x)),
                             Config.PricedPromotion(x.promotion.value.requiredQuantity, BundlePrice(x.promotion.value)))
  {
    if !IsPromotionApplied(cart, x) then 0
    else
      var p := x.promotion.value;
      var sets := SlotQuantity(cart, x) / Required(p);
      DivAtLeastOne(SlotQuantity(cart, x), Required(p));
      sets * BundlePrice(p)
  }

  lemma DivAtLeastOne(n: int, d: nat)
    requires d >= 1 && n >= d
    ensures n / d >= 1
  {
  }

  /** An entry is marked as applied exactly when it carries no hint, and an entry without a
      promotion gets neither. */
  lemma AppliedIffNoHint(cart: seq<LineItem>, x: LineItem)
    ensures x.promotion.Some? ==> (IsPromotionApplied(cart, x) <==> Encouragement(cart, x).None?)
    ensures x.promotion.None? ==> !IsPromotionApplied(cart, x) && Encouragement(cart, x).None? &&
                                  PromoPriceForItem(cart, x) == 0
  {
  }

  /** The view and the checkout price can disagree: an entry added before its promotion
      existed has no snapshot, yet the view counts it towards the promoted entry's set. */
  lemma ViewCountsUnpromotedEntries()
    ensures var p := Promotion("p1", "milk-tea", "reg", "", 2, 500, 600, true, "2 for 5.00");
            var promoted := LineItem("t1", "Taro", "", "milk-tea", "reg", 300, 1, Some(p));
            var plain := LineItem("t2", "Matcha", "", "milk-tea", "reg", 300, 1, None);
            var cart := [promoted, plain];
            && IsPromotionApplied(cart, promoted)
            && PromoPriceForItem(cart, promoted) == 500
            && PromoDiscount(cart) == 0
            && PromoTotal(cart) == Subtotal(cart) == 600
  {
    var p := Promotion("p1", "milk-tea", "reg", "", 2, 500, 600, true, "2 for 5.00");
    var promoted := LineItem("t1", "Taro", "", "milk-tea", "reg", 300, 1, Some(p));
    var plain := LineItem("t2", "Matcha", "", "milk-tea", "reg", 300, 1, None);
    ExampleView(promoted, plain);
    ExampleCheckout(promoted, plain);
  }

  /** The view's side of the example: both entries share the slot, so the set is full. */
  lemma ExampleView(promoted: LineItem, plain: LineItem)
    requires promoted == LineItem("t1", "Taro", "", "milk-tea", "reg", 300, 1,
                                  Some(Promotion("p1", "milk-tea", "reg", "", 2, 500, 600, true, "2 for 5.00")))
    requires plain == LineItem("t2", "Matcha", "", "milk-tea", "reg", 300, 1, None)
    ensures IsPromotionApplied([promoted, plain], promoted)
    ensures PromoPriceForItem([promoted, plain], promoted) == 500
  {
    var cart := [promoted, plain];
    assert Filter(cart, i => SameSlot(i, promoted)) == cart by {
      FilterAll(cart, i => SameSlot(i, promoted));
    }
    assert SumOver(cart, Quantity) == 2 by {
      assert cart[..1] == [promoted];
      assert SumOver([promoted], Quantity) == SumOver([], Quantity) + 1;
    }
  }

  /** The checkout's side: only the entry with a snapshot is grouped, and one unit forms no
      bundle. */
  lemma ExampleCheckout(promoted: LineItem, plain: LineItem)
    requires promoted == LineItem("t1", "Taro", "", "milk-tea", "reg", 300, 1,
                                  Some(Promotion("p1", "milk-tea", "reg", "", 2, 500, 600, true, "2 for 5.00")))
    requires plain == LineItem("t2", "Matcha", "", "milk-tea", "reg", 300, 1, None)
    ensures PromoDiscount([promoted, plain]) == 0
    ensures PromoTotal([promoted, plain]) == Subtotal([promoted, plain]) == 600
  {
    var cart := [promoted, plain];
    assert cart[..1] == [promoted];
    assert Groups([promoted]) == [SingleGroup(promoted)];
    assert Groups(cart) == [SingleGroup(promoted)];
    OneBundleGroupPrice(promoted);
    var g := SingleGroup(promoted);
    assert [g][..0] == [];
    assert SumOver([g], GroupPromoTotal) == 300;
    assert SumOver([g], GroupDiscount) == 0;
    assert SumOver([g], QualifyingPromo) == 0 == SumOver([g], QualifyingRegular);
    assert SumOver(cart, LineCost) == 600 by {
      assert SumOver([promoted], LineCost) == SumOver([], LineCost) + 300;
    }
    assert Filter(cart, Unpromoted) == [plain] by {
      FilterStep(cart, Unpromoted);
      FilterStep([promoted], Unpromoted);
    }
    assert Subtotal([plain]) == 300 by {
      assert [plain][..0] == [];
    }
  }

  lemma OneBundleGroupPrice(x: LineItem)
    requires x.promotion == Some(Promotion("p1", "milk-tea", "reg", "", 2, 500, 600, true, "2 for 5.00"))
    requires x.quantity == 1 && x.price == 300
    ensures GroupDiscount(SingleGroup(x)) == 0
    ensures GroupPromoTotal(SingleGroup(x)) == 300
  {
    var g := SingleGroup(x);
    assert Sets(g) == 0;
    assert [x][..0] == [];
    assert SumOver([x], LineCost) == SumOver([], LineCost) + LineCost(x);
  }
}
