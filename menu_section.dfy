/** The menu page of src/components/MenuSection.jsx: the per-product selection summary it
    rebuilds from the cart, the item the add dialog builds, its quantity stepper, its
    promotion-free total and the order-now guard. */
module MenuSection {
  import opened Wrappers
  import opened Seqs
  import opened CartItems
  import opened PromoPricing
  import CartContext

  // ---------------------------------------------------------------------------
  // Selections rebuilt from the cart
  // ---------------------------------------------------------------------------

  datatype Selection = Selection(size: string, price: int, quantity: int)

  /** `selectedItems[productId]`: the sizes chosen of one product. */
  datatype ProductSelections = ProductSelections(productId: string, selections: seq<Selection>)

  predicate HasId(id: string, g: ProductSelections) { g.productId == id }

  predicate HasSize(size: string, s: Selection) { s.size == size }

  /** `selectedItems[productId]`, as a position in the summary. */
  function FindProduct(gs: seq<ProductSelections>, id: string): Option<nat>
  {
    FirstIndex(gs, g => HasId(id, g))
  }

  /** `selections.find(selection => selection.size === size)`, as a position. */
  function FindSize(sels: seq<Selection>, size: string): Option<nat>
  {
    FirstIndex(sels, s => HasSize(size, s))
  }

  /** One step of the sync loop: add the entry's quantity to its product's selection of
      that size, or open the selection (and the product) with the entry's price. */
  function AddSelection(gs: seq<ProductSelections>, x: LineItem): seq<ProductSelections>
  {
    match FindProduct(gs, x.id)
    case None => gs + [ProductSelections(x.id, [Selection(x.size, x.price, x.quantity)])]
    case Some(j) =>
      var sels := gs[j].selections;
      match FindSize(sels, x.size)
      case None => gs[j := gs[j].(selections := sels + [Selection(x.size, x.price, x.quantity)])]
      case Some(k) => gs[j := gs[j].(selections := sels[k := sels[k].(quantity := sels[k].quantity + x.quantity)])]
  }

  /** The selections of a cart: every entry folded in, in cart order. */
  function SelectionsOf(cart: seq<LineItem>): seq<ProductSelections>
  {
    if |cart| == 0 then [] else AddSelection(SelectionsOf(cart[..|cart| - 1]), cart[|cart| - 1])
  }

  lemma SelectionsOfStep(cart: seq<LineItem>, i: int)
    requires 0 <= i < |cart|
    ensures SelectionsOf(cart[..i + 1]) == AddSelection(SelectionsOf(cart[..i]), cart[i])
  {
    assert cart[..i + 1][..i] == cart[..i];
  }

  /** A product not yet in the summary: opened empty, then given the entry's selection. */
  lemma NewProductEntry(gs: seq<ProductSelections>, x: LineItem)
    requires FindProduct(gs, x.id).None?
    ensures AddSelection(gs, x) ==
      (gs + [ProductSelections(x.id, [])])[|gs| := ProductSelections(x.id, [] + [Selection(x.size, x.price, x.quantity)])]
  {
    var s := Selection(x.size, x.price, x.quantity);
    assert [] + [s] == [s];
    assert (gs + [ProductSelections(x.id, [])])[|gs| := ProductSelections(x.id, [s])] == gs + [ProductSelections(x.id, [s])];
  }

  /** The forEach callback of syncSelectedItemsWithCart: fold one cart entry into the
      summary. */
  method SyncEntry(selected: seq<ProductSelections>, item: LineItem) returns (next: seq<ProductSelections>)
    ensures next == AddSelection(selected, item)
  {
    next := selected;
    var productIndex := FindProduct(next, item.id);
    if productIndex.None? {
      next := next + [ProductSelections(item.id, [])];
      productIndex := Some(|next| - 1);
    }
    var j := productIndex.value;
    var sels := next[j].selections;
    if FindProduct(selected, item.id).None? {
      NewProductEntry(selected, item);
      assert next == selected + [ProductSelections(item.id, [])] && j == |selected| && sels == [];
    }
    var existing := FindSize(sels, item.size);
    if existing.Some? {
      var k := existing.value;
      next := next[j := next[j].(selections := sels[k := sels[k].(quantity := sels[k].quantity + item.quantity)])];
    } else {
      next := next[j := next[j].(selections := sels + [Selection(item.size, item.price, item.quantity)])];
    }
  }

  /** syncSelectedItemsWithCart. */
  method SyncSelectedItems(cart: seq<LineItem>) returns (selected: seq<ProductSelections>)
    ensures selected == SelectionsOf(cart)
  {
    selected := [];
    var i := 0;
    while i < |cart|
      invariant 0 <= i <= |cart|
      invariant selected == SelectionsOf(cart[..i])
    {
      SelectionsOfStep(cart, i);
      selected := SyncEntry(selected, cart[i]);
      i := i + 1;
    }
    assert cart[..i] == cart;
  }

  /** The selection held for a product and size, if any. */
  function Lookup(gs: seq<ProductSelections>, id: string, size: string): Option<Selection>
  {
    match FindProduct(gs, id)
    case None => None
    case Some(j) =>
      match FindSize(gs[j].selections, size)
      case None => None
      case Some(k) => Some(gs[j].selections[k])
  }

  /** The cart units with this product id and size. */
  function PairQuantity(cart: seq<LineItem>, id: string, size: string): int
  {
    if |cart| == 0 then 0
    else
      var x := cart[|cart| - 1];
      PairQuantity(cart[..|cart| - 1], id, size) + (if x.id == id && x.size == size then x.quantity else 0)
  }

  /** The first cart entry with this product id and size. */
  function FirstPair(cart: seq<LineItem>, id: string, size: string): (r: Option<nat>)
    ensures r.None? <==> forall i :: 0 <= i < |cart| ==> !(cart[i].id == id && cart[i].size == size)
    ensures r.Some? ==> r.value < |cart| && cart[r.value].id == id && cart[r.value].size == size &&
                        forall i :: 0 <= i < r.value ==> !(cart[i].id == id && cart[i].size == size)
    ensures r.None? ==> PairQuantity(cart, id, size) == 0
  {
    if |cart| == 0 then None
    else
      var init := FirstPair(cart[..|cart| - 1], id, size);
      var x := cart[|cart| - 1];
      if init.Some? then init
      else if x.id == id && x.size == size then Some(|cart| - 1)
      else None
  }

  /** What the summary should hold for a product and size. */
  function Expected(cart: seq<LineItem>, id: string, size: string): Option<Selection>
  {
    match FirstPair(cart, id, size)
    case None => None
    case Some(i) => Some(Selection(size, cart[i].price, PairQuantity(cart, id, size)))
  }

  lemma FindProductUpdate(gs: seq<ProductSelections>, j: nat, g: ProductSelections, id: string)
    requires j < |gs| && g.productId == gs[j].productId
    ensures FindProduct(gs[j := g], id) == FindProduct(gs, id)
  {
    FirstIndexSame(gs[j := g], gs, g' => HasId(id, g'));
  }

  lemma FindSizeUpdate(sels: seq<Selection>, k: nat, s: Selection, size: string)
    requires k < |sels| && s.size == sels[k].size
    ensures FindSize(sels[k := s], size) == FindSize(sels, size)
  {
    FirstIndexSame(sels[k := s], sels, s' => HasSize(size, s'));
  }

  lemma FindProductAppend(gs: seq<ProductSelections>, g: ProductSelections, id: string)
    requires FindProduct(gs, g.productId).None?
    ensures id != g.productId ==> FindProduct(gs + [g], id) == FindProduct(gs, id)
    ensures FindProduct(gs + [g], g.productId) == Some(|gs|)
  {
    FirstIndexAppend(gs, g, g' => HasId(id, g'));
    FirstIndexAppend(gs, g, g' => HasId(g.productId, g'));
  }

  lemma FindSizeAppend(sels: seq<Selection>, s: Selection, size: string)
    requires FindSize(sels, s.size).None?
    ensures size != s.size ==> FindSize(sels + [s], size) == FindSize(sels, size)
    ensures FindSize(sels + [s], s.size) == Some(|sels|)
  {
    FirstIndexAppend(sels, s, s' => HasSize(size, s'));
    FirstIndexAppend(sels, s, s' => HasSize(s.size, s'));
  }

  /** The sync step that opens a new product. */
  lemma LookupStepNewProduct(gs: seq<ProductSelections>, x: LineItem, id: string, size: string)
    requires FindProduct(gs, x.id).None?
    ensures Lookup(AddSelection(gs, x), id, size) ==
      if x.id == id && x.size == size then Some(Selection(size, x.price, x.quantity)) else Lookup(gs, id, size)
  {
    var g := ProductSelections(x.id, [Selection(x.size, x.price, x.quantity)]);
    FindProductAppend(gs, g, id);
    if id == x.id {
      FirstIndexAppend([], Selection(x.size, x.price, x.quantity), s' => HasSize(size, s'));
      assert [] + [Selection(x.size, x.price, x.quantity)] == g.selections;
      assert Lookup(gs, id, size) == None;
    }
  }

  /** The sync step that opens a new size of a product already shown. */
  lemma LookupStepNewSize(gs: seq<ProductSelections>, x: LineItem, id: string, size: string)
    requires FindProduct(gs, x.id).Some?
    requires FindSize(gs[FindProduct(gs, x.id).value].selections, x.size).None?
    ensures Lookup(AddSelection(gs, x), id, size) ==
      if x.id == id && x.size == size then Some(Selection(size, x.price, x.quantity)) else Lookup(gs, id, size)
  {
    var j := FindProduct(gs, x.id).value;
    var sels := gs[j].selections;
    var s := Selection(x.size, x.price, x.quantity);
    var gs' := gs[j := gs[j].(selections := sels + [s])];
    assert AddSelection(gs, x) == gs';
    FindProductUpdate(gs, j, gs[j].(selections := sels + [s]), id);
    FindSizeAppend(sels, s, size);
    if id != x.id {
      var f := FindProduct(gs, id);
      if f.Some? {
        assert f.value != j;
        assert gs'[f.value] == gs[f.value];
      }
    }
  }

  /** The sync step that adds to a selection already shown. */
  lemma LookupStepExisting(gs: seq<ProductSelections>, x: LineItem, id: string, size: string)
    requires FindProduct(gs, x.id).Some?
    requires FindSize(gs[FindProduct(gs, x.id).value].selections, x.size).Some?
    ensures Lookup(AddSelection(gs, x), id, size) ==
      if x.id == id && x.size == size then
        Some(Lookup(gs, id, size).value.(quantity := Lookup(gs, id, size).value.quantity + x.quantity))
      else Lookup(gs, id, size)
  {
    var j := FindProduct(gs, x.id).value;
    var sels := gs[j].selections;
    var k := FindSize(sels, x.size).value;
    var t := sels[k].(quantity := sels[k].quantity + x.quantity);
    var gs' := gs[j := gs[j].(selections := sels[k := t])];
    assert AddSelection(gs, x) == gs';
    FindProductUpdate(gs, j, gs[j].(selections := sels[k := t]), id);
    FindSizeUpdate(sels, k, t, size);
    if id != x.id {
      var f := FindProduct(gs, id);
      if f.Some? {
        assert f.value != j;
        assert gs'[f.value] == gs[f.value];
      }
    } else if size != x.size {
      var f := FindSize(sels, size);
      if f.Some? {
        assert f.value != k;
      }
    }
  }

  /** How one sync step changes the selection held for a product and size. */
  lemma LookupStep(gs: seq<ProductSelections>, x: LineItem, id: string, size: string)
    ensures Lookup(AddSelection(gs, x), id, size) ==
      if x.id == id && x.size == size then
        match Lookup(gs, id, size)
        case None => Some(Selection(size, x.price, x.quantity))
        case Some(s) => Some(s.(quantity := s.quantity + x.quantity))
      else Lookup(gs, id, size)
  {
    if FindProduct(gs, x.id).None? {
      LookupStepNewProduct(gs, x, id, size);
    } else if FindSize(gs[FindProduct(gs, x.id).value].selections, x.size).None? {
      LookupStepNewSize(gs, x, id, size);
    } else {
      LookupStepExisting(gs, x, id, size);
    }
  }

  /** The summary holds, for every product and size in the cart, one selection whose
      quantity is the sum over the matching entries and whose price is the first matching
      entry's; for any other product and size it holds nothing. */
  lemma {:induction false} SelectionsCorrect(cart: seq<LineItem>, id: string, size: string)
    ensures Lookup(SelectionsOf(cart), id, size) == Expected(cart, id, size)
  {
    if |cart| > 0 {
      var init := cart[..|cart| - 1];
      var x := cart[|cart| - 1];
      var before := SelectionsOf(init);
      assert SelectionsOf(cart) == AddSelection(before, x);
      SelectionsCorrect(init, id, size);
      LookupStep(before, x, id, size);
      ExpectedStep(cart, id, size);
      if x.id == id && x.size == size {
        match Expected(init, id, size)
        case None =>
        case Some(sel) =>
      }
    }
  }

  /** How one more cart entry changes what the summary should hold. */
  lemma ExpectedStep(cart: seq<LineItem>, id: string, size: string)
    requires |cart| > 0
    ensures var init, x := cart[..|cart| - 1], cart[|cart| - 1];
      Expected(cart, id, size) ==
        if x.id == id && x.size == size then
          match Expected(init, id, size)
          case None => Some(Selection(size, x.price, x.quantity))
          case Some(s) => Some(s.(quantity := s.quantity + x.quantity))
        else Expected(init, id, size)
  {
    var init := cart[..|cart| - 1];
    match FirstPair(init, id, size)
    case None =>
    case Some(i) => assert cart[i] == init[i];
  }

  // Units in a summary

  function SelectionQuantity(s: Selection): int { s.quantity }

  function ProductQuantity(g: ProductSelections): int { SumOver(g.selections, SelectionQuantity) }

  /** The units the summary shows, over all products and sizes. */
  function SelectedUnits(gs: seq<ProductSelections>): int { SumOver(gs, ProductQuantity) }

  lemma SelectedUnitsStep(gs: seq<ProductSelections>, x: LineItem)
    ensures SelectedUnits(AddSelection(gs, x)) == SelectedUnits(gs) + x.quantity
  {
    var s := Selection(x.size, x.price, x.quantity);
    match FindProduct(gs, x.id)
    case None =>
      UnitsNewProduct(gs, ProductSelections(x.id, [s]));
    case Some(j) =>
      var sels := gs[j].selections;
      match FindSize(sels, x.size)
      case None =>
        assert (sels + [s])[..|sels|] == sels;
        SumOverUpdate(gs, j, gs[j].(selections := sels + [s]), ProductQuantity);
      case Some(k) =>
        var t := sels[k].(quantity := sels[k].quantity + x.quantity);
        SumOverUpdate(sels, k, t, SelectionQuantity);
        SumOverUpdate(gs, j, gs[j].(selections := sels[k := t]), ProductQuantity);
  }

  lemma UnitsNewProduct(gs: seq<ProductSelections>, g: ProductSelections)
    requires |g.selections| == 1
    ensures SelectedUnits(gs + [g]) == SelectedUnits(gs) + g.selections[0].quantity
  {
    assert (gs + [g])[..|gs|] == gs;
    var sels := g.selections;
    assert sels[..0] == [];
    assert SumOver(sels, SelectionQuantity) == SumOver(sels[..0], SelectionQuantity) + SelectionQuantity(sels[0]);
  }

  /** The summary shows exactly as many units as the cart holds. */
  lemma {:induction false} SelectedUnitsMatchCart(cart: seq<LineItem>)
    ensures SelectedUnits(SelectionsOf(cart)) == TotalItems(cart)
  {
    if |cart| > 0 {
      SelectedUnitsMatchCart(cart[..|cart| - 1]);
      SelectedUnitsStep(SelectionsOf(cart[..|cart| - 1]), cart[|cart| - 1]);
    }
  }

  predicate ProductsDistinct(gs: seq<ProductSelections>)
  {
    forall a, b :: 0 <= a < b < |gs| ==> gs[a].productId != gs[b].productId
  }

  predicate SizesDistinct(sels: seq<Selection>)
  {
    forall a, b :: 0 <= a < b < |sels| ==> sels[a].size != sels[b].size
  }

  predicate OnePerPair(gs: seq<ProductSelections>)
  {
    ProductsDistinct(gs) && forall j :: 0 <= j < |gs| ==> SizesDistinct(gs[j].selections)
  }

  lemma OnePerPairStep(gs: seq<ProductSelections>, x: LineItem)
    requires OnePerPair(gs)
    ensures OnePerPair(AddSelection(gs, x))
  {
    var s := Selection(x.size, x.price, x.quantity);
    match FindProduct(gs, x.id)
    case None =>
      AppendKeepsOnePerPair(gs, ProductSelections(x.id, [s]));
    case Some(j) =>
      var sels := gs[j].selections;
      match FindSize(sels, x.size)
      case None =>
        assert SizesDistinct(sels + [s]);
        ReplaceKeepsOnePerPair(gs, j, gs[j].(selections := sels + [s]));
      case Some(k) =>
        var u := sels[k := sels[k].(quantity := sels[k].quantity + x.quantity)];
        assert SizesDistinct(u) by {
          forall a, b | 0 <= a < b < |u| ensures u[a].size != u[b].size {
            assert u[a].size == sels[a].size;
            assert u[b].size == sels[b].size;
          }
        }
        ReplaceKeepsOnePerPair(gs, j, gs[j].(selections := u));
  }

  lemma AppendKeepsOnePerPair(gs: seq<ProductSelections>, g: ProductSelections)
    requires OnePerPair(gs) && |g.selections| == 1
    requires forall j :: 0 <= j < |gs| ==> gs[j].productId != g.productId
    ensures OnePerPair(gs + [g])
  {
    var r := gs + [g];
    forall i | 0 <= i < |r| ensures SizesDistinct(r[i].selections) {
      if i < |gs| { assert r[i] == gs[i]; }
    }
  }

  lemma ReplaceKeepsOnePerPair(gs: seq<ProductSelections>, j: nat, g: ProductSelections)
    requires OnePerPair(gs) && j < |gs|
    requires g.productId == gs[j].productId && SizesDistinct(g.selections)
    ensures OnePerPair(gs[j := g])
  {
    var r := gs[j := g];
    forall i | 0 <= i < |r| ensures SizesDistinct(r[i].selections) {
      if i != j { assert r[i] == gs[i]; }
    }
  }

  /** One selection per product and size: no product appears twice, and no size twice
      within a product. */
  lemma {:induction false} SelectionsOnePerPair(cart: seq<LineItem>)
    ensures OnePerPair(SelectionsOf(cart))
  {
    if |cart| > 0 {
      SelectionsOnePerPair(cart[..|cart| - 1]);
      OnePerPairStep(SelectionsOf(cart[..|cart| - 1]), cart[|cart| - 1]);
    }
  }

  // ---------------------------------------------------------------------------
  // The add dialog
  // ---------------------------------------------------------------------------

  /** The product fields the dialog reads. */
  datatype MenuProduct = MenuProduct(id: string, name: string, category: string, priceReg: int, priceLrg: int)

  /** handleConfirmAdd: nothing without an open product; otherwise the item to add, priced
      by the chosen size. */
  function ConfirmAdd(modalProduct: Option<MenuProduct>, size: string, quantity: int): (r: Option<NewItem>)
    ensures r.None? <==> modalProduct.None?
    ensures r.Some? ==>
      && r.value.price == (if size == "reg" then modalProduct.value.priceReg else modalProduct.value.priceLrg)
      && r.value.id == modalProduct.value.id && r.value.name == modalProduct.value.name
      && r.value.category == modalProduct.value.category
      && r.value.size == size && r.value.quantity == quantity
  {
    match modalProduct
    case None => None
    case Some(p) =>
      Some(NewItem(p.id, p.name, "", p.category, size, if size == "reg" then p.priceReg else p.priceLrg, quantity))
  }

  /** A confirmed item the cart does not hold yet becomes a new last entry priced by the
      chosen size. */
  lemma ConfirmedItemAppended(cart: seq<LineItem>, promotions: seq<Promotion>, p: MenuProduct, size: string, quantity: int)
    requires p.name != ""
    requires CartContext.FindEntry(cart, p.name, size).None?
    ensures var r := CartContext.AddedItems(cart, promotions, ConfirmAdd(Some(p), size, quantity).value);
            && |r| == |cart| + 1
            && r[|cart|].price == (if size == "reg" then p.priceReg else p.priceLrg)
            && r[|cart|].quantity == quantity && r[|cart|].name == p.name
  {
  }

  /** The dialog's minus button: one less, but never below 1. */
  function StepDown(quantity: int): (r: int)
    ensures r >= 1
    ensures quantity > 1 ==> r == quantity - 1
    ensures quantity <= 1 ==> r == 1
  {
    if quantity - 1 >= 1 then quantity - 1 else 1
  }

  /** The dialog's plus button. */
  function StepUp(quantity: int): (r: int)
    ensures r > quantity
  {
    quantity + 1
  }

  /** From any quantity the dialog can show, plus then minus returns to it. */
  lemma StepRoundTrip(quantity: int)
    requires quantity >= 1
    ensures StepDown(StepUp(quantity)) == quantity
    ensures StepUp(quantity) >= 1
  {
  }

  // ---------------------------------------------------------------------------
  // Totals and the order button
  // ---------------------------------------------------------------------------

  /** The menu page's calculateTotal: every unit at its regular price, promotions ignored. */
  function MenuTotal(cart: seq<LineItem>): (r: int)
    ensures r == CalculateTotal(cart, false)
  {
    SumOver(cart, LineCost)
  }

  /** The menu page can show more than the checkout charges. */
  lemma MenuTotalIgnoresPromotions()
    ensures var promo := Promotion("p", "milk-teas", "reg", "", 3, 500, 700, true, "3 for 5");
            var item := LineItem("t", "Milk Tea", "", "milk-teas", "reg", 200, 7, Some(promo));
            MenuTotal([item]) == 1400 && CalculateTotal([item], true) == 1200
  {
    BundleExample();
  }

  datatype OrderNowOutcome = EmptyCartAlert | ShowCheckout

  /** handleOrderNow: an empty cart raises an alert; any other opens the checkout. */
  function OrderNow(cart: seq<LineItem>): (r: OrderNowOutcome)
    ensures r == EmptyCartAlert <==> |cart| == 0
  {
    if |cart| == 0 then EmptyCartAlert else ShowCheckout
  }
}
