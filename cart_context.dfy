/** The cart store of src/contexts/CartContext.jsx: the edits as functions on the entry list,
    and the provider as a class whose `cartItems` field the edits replace. */
module CartContext {
  import opened Wrappers
  import opened Seqs
  import opened CartItems
  import opened PromoPricing

  // ---------------------------------------------------------------------------
  // Lookups
  // ---------------------------------------------------------------------------

  predicate PromotionMatches(p: Promotion, category: string, size: string)
  {
    p.category == category && MatchSize(p) == size
  }

  /** `promotions.find(...)`: the first promotion for this category and size. */
  function FindPromotion(promotions: seq<Promotion>, category: string, size: string): (r: Option<Promotion>)
    ensures r.None? <==> forall k :: 0 <= k < |promotions| ==> !PromotionMatches(promotions[k], category, size)
    ensures r.Some? ==>
      (exists k :: 0 <= k < |promotions| && promotions[k] == r.value &&
        PromotionMatches(r.value, category, size) && NoPromotionBefore(promotions, k, category, size))
  {
    if |promotions| == 0 then None
    else if PromotionMatches(promotions[0], category, size) then
      assert NoPromotionBefore(promotions, 0, category, size);
      Some(promotions[0])
    else
      var rest := FindPromotion(promotions[1..], category, size);
      if rest.Some? then
        var k :| 0 <= k < |promotions[1..]| && promotions[1..][k] == rest.value &&
          PromotionMatches(rest.value, category, size) && NoPromotionBefore(promotions[1..], k, category, size);
        assert NoPromotionBefore(promotions, k + 1, category, size) by {
          forall k' | 0 <= k' < k + 1 ensures !PromotionMatches(promotions[k'], category, size) {
            if k' > 0 { assert promotions[k'] == promotions[1..][k' - 1]; }
          }
        }
        rest
      else
        assert forall k :: 1 <= k < |promotions| ==> promotions[k] == promotions[1..][k - 1];
        rest
  }

  predicate NoPromotionBefore(promotions: seq<Promotion>, k: int, category: string, size: string)
    requires 0 <= k <= |promotions|
  {
    forall k' :: 0 <= k' < k ==> !PromotionMatches(promotions[k'], category, size)
  }

  predicate SameEntry(x: LineItem, name: string, size: string)
  {
    x.name == name && x.size == size
  }

  /** `findIndex(i => i.name === item.name && i.size === item.size)`. */
  function FindEntry(items: seq<LineItem>, name: string, size: string): (r: Option<nat>)
    ensures r.None? <==> forall k :: 0 <= k < |items| ==> !SameEntry(items[k], name, size)
    ensures r.Some? ==>
      (r.value < |items| && SameEntry(items[r.value], name, size) &&
       forall k :: 0 <= k < r.value ==> !SameEntry(items[k], name, size))
  {
    if |items| == 0 then None
    else if SameEntry(items[0], name, size) then Some(0)
    else
      match FindEntry(items[1..], name, size)
      case None => None
      case Some(j) => Some(j + 1)
  }

  /** The name a new entry gets: `item.name || item.title || 'Unknown Item'`. */
  function EntryName(name: string, title: string): (r: string)
    ensures r != ""
    ensures name != "" ==> r == name
    ensures name == "" && title != "" ==> r == title
    ensures name == "" && title == "" ==> r == "Unknown Item"
  {
    if name != "" then name else if title != "" then title else "Unknown Item"
  }

  function NewEntry(item: NewItem, promotion: Option<Promotion>): LineItem
  {
    LineItem(item.id, EntryName(item.name, item.title), item.title, item.category, item.size,
             item.price, item.quantity, promotion)
  }

  // ---------------------------------------------------------------------------
  // Edits on the entry list
  // ---------------------------------------------------------------------------

  /** addToCart: merge into the first entry with the same name and size, or append a new
      entry carrying the promotion that matches its category and size now. */
  function AddedItems(items: seq<LineItem>, promotions: seq<Promotion>, item: NewItem): (r: seq<LineItem>)
    ensures TotalItems(r) == TotalItems(items) + item.quantity
    ensures FindEntry(items, item.name, item.size).Some? ==>
      var j := FindEntry(items, item.name, item.size).value;
      && |r| == |items|
      && r[j] == items[j].(quantity := items[j].quantity + item.quantity)
      && (forall k :: 0 <= k < |items| && k != j ==> r[k] == items[k])
      && Subtotal(r) == Subtotal(items) + items[j].price * item.quantity
    ensures FindEntry(items, item.name, item.size).None? ==>
      && |r| == |items| + 1
      && r[..|items|] == items
      && r[|items|].name == EntryName(item.name, item.title)
      && r[|items|].quantity == item.quantity
      && r[|items|].price == item.price
      && r[|items|].promotion == FindPromotion(promotions, item.category, item.size)
      && Subtotal(r) == Subtotal(items) + item.price * item.quantity
  {
    match FindEntry(items, item.name, item.size)
    case Some(j) =>
      MergeTotals(items, j, item.quantity);
      items[j := items[j].(quantity := items[j].quantity + item.quantity)]
    case None =>
      var r := items + [NewEntry(item, FindPromotion(promotions, item.category, item.size))];
      SumAppendOne(items, r[|items|]);
      assert r[..|items|] == items;
      r
  }

  /** Raising one entry's quantity by `n` adds `n` units and `n` times its price. */
  lemma MergeTotals(items: seq<LineItem>, j: nat, n: int)
    requires j < |items|
    ensures var r := items[j := items[j].(quantity := items[j].quantity + n)];
      && TotalItems(r) == TotalItems(items) + n
      && Subtotal(r) == Subtotal(items) + items[j].price * n
  {
    var r := items[j := items[j].(quantity := items[j].quantity + n)];
    SumOverUpdate(items, j, r[j], Quantity);
    SumOverUpdate(items, j, r[j], LineCost);
    assert LineCost(r[j]) == LineCost(items[j]) + items[j].price * n;
  }


  /** The argument of removeFromCart: an object (whose missing fields are empty strings), or
      anything else, such as a bare id string. */
  datatype RemoveArg = ObjectArg(id: string, name: string, size: string) | OtherArg

  predicate KeepAfterRemove(arg: RemoveArg, x: LineItem)
  {
    match arg
    case ObjectArg(id, name, size) =>
      if id != "" then x.id != id
      else if name != "" && size != "" then !SameEntry(x, name, size)
      else true
    case OtherArg => true
  }

  /** removeFromCart: drop every entry with the object's id, or else every entry with its
      name and size; any other argument changes nothing. */
  function Removed(items: seq<LineItem>, arg: RemoveArg): (r: seq<LineItem>)
    ensures |r| <= |items|
    ensures arg.ObjectArg? && arg.id != "" ==>
      forall x :: x in r <==> x in items && x.id != arg.id
    ensures arg.ObjectArg? && arg.id == "" && arg.name != "" && arg.size != "" ==>
      forall x :: x in r <==> x in items && !SameEntry(x, arg.name, arg.size)
    ensures arg.OtherArg? || (arg.id == "" && (arg.name == "" || arg.size == "")) ==> r == items
    ensures r == Filter(items, x => KeepAfterRemove(arg, x))
  {
    if arg.ObjectArg? && (arg.id != "" || (arg.name != "" && arg.size != "")) then
      Filter(items, x => KeepAfterRemove(arg, x))
    else
      FilterAll(items, x => KeepAfterRemove(arg, x));
      items
  }

  /** increaseQuantity(index). */
  function Increased(items: seq<LineItem>, index: int): (r: seq<LineItem>)
    ensures |r| == |items|
    ensures forall k :: 0 <= k < |items| && k != index ==> r[k] == items[k]
    ensures 0 <= index < |items| ==> r[index] == items[index].(quantity := items[index].quantity + 1)
  {
    seq(|items|, k requires 0 <= k < |items| =>
      if k == index then items[k].(quantity := items[k].quantity + 1) else items[k])
  }

  function Max1(n: int): int { if n >= 1 then n else 1 }

  /** decreaseQuantity(index): never below 1. */
  function Decreased(items: seq<LineItem>, index: int): (r: seq<LineItem>)
    ensures |r| == |items|
    ensures forall k :: 0 <= k < |items| && k != index ==> r[k] == items[k]
    ensures 0 <= index < |items| ==> r[index] == items[index].(quantity := Max1(items[index].quantity - 1))
    ensures 0 <= index < |items| ==> r[index].quantity >= 1
  {
    seq(|items|, k requires 0 <= k < |items| =>
      if k == index then items[k].(quantity := Max1(items[k].quantity - 1)) else items[k])
  }

  /** updateQuantity(item, n): every entry with the item's name and size gets `max(1, n)`. */
  function QuantityUpdated(items: seq<LineItem>, name: string, size: string, n: int): (r: seq<LineItem>)
    ensures |r| == |items|
    ensures forall k :: 0 <= k < |items| && !SameEntry(items[k], name, size) ==> r[k] == items[k]
    ensures forall k :: 0 <= k < |items| && SameEntry(items[k], name, size) ==>
      r[k] == items[k].(quantity := Max1(n)) && r[k].quantity >= 1
  {
    seq(|items|, k requires 0 <= k < |items| =>
      if SameEntry(items[k], name, size) then items[k].(quantity := Max1(n)) else items[k])
  }

  // ---------------------------------------------------------------------------
  // Properties of the edits
  // ---------------------------------------------------------------------------

  /** A stepper round trip: decreasing after increasing restores a cart whose entry has at
      least one unit. */
  lemma DecreaseUndoesIncrease(items: seq<LineItem>, index: int)
    requires 0 <= index < |items| ==> items[index].quantity >= 1
    ensures Decreased(Increased(items, index), index) == items
  {
    var r := Decreased(Increased(items, index), index);
    assert |r| == |items|;
    forall k | 0 <= k < |items| ensures r[k] == items[k] {
    }
  }

  /** Increasing an entry in range adds one unit to the cart; out of range it changes nothing. */
  lemma IncreaseAddsOneUnit(items: seq<LineItem>, index: int)
    ensures 0 <= index < |items| ==> TotalItems(Increased(items, index)) == TotalItems(items) + 1
    ensures !(0 <= index < |items|) ==> Increased(items, index) == items
  {
    if 0 <= index < |items| {
      var r := Increased(items, index);
      assert r == items[index := r[index]];
      SumOverUpdate(items, index, r[index], Quantity);
    } else {
      assert Increased(items, index) == items;
    }
  }

  /** Setting a quantity twice is the same as setting it once. */
  lemma UpdateQuantityIdempotent(items: seq<LineItem>, name: string, size: string, n: int)
    ensures QuantityUpdated(QuantityUpdated(items, name, size, n), name, size, n) == QuantityUpdated(items, name, size, n)
  {
    var once := QuantityUpdated(items, name, size, n);
    var twice := QuantityUpdated(once, name, size, n);
    assert |twice| == |once|;
    forall k | 0 <= k < |once| ensures twice[k] == once[k] {
      assert SameEntry(once[k], name, size) == SameEntry(items[k], name, size);
    }
  }

  /** An item without a name never merges: each add of it appends a fresh entry. */
  lemma NamelessItemNeverMerges(items: seq<LineItem>, promotions: seq<Promotion>, item: NewItem)
    requires item.name == ""
    requires forall x :: x in items ==> x.name != ""
    ensures |AddedItems(items, promotions, item)| == |items| + 1
  {
    assert forall k :: 0 <= k < |items| ==> items[k] in items;
  }

  /** Adding the same name and size twice yields one entry holding both quantities. */
  lemma AddTwiceMerges(promotions: seq<Promotion>, item: NewItem, more: NewItem)
    requires item.name != "" && more.name == item.name && more.size == item.size
    ensures var once := AddedItems([], promotions, item);
            var twice := AddedItems(once, promotions, more);
            |twice| == 1 && twice[0].quantity == item.quantity + more.quantity
  {
    var once := AddedItems([], promotions, item);
    assert |once| == 1 && SameEntry(once[0], more.name, more.size);
  }

  /** Adding keeps every attached promotion matching its entry, and keeps every quantity
      at least 1 when what is added is at least 1. */
  lemma AddKeepsInvariants(items: seq<LineItem>, promotions: seq<Promotion>, item: NewItem)
    ensures SnapshotsMatch(items) ==> SnapshotsMatch(AddedItems(items, promotions, item))
    ensures QuantitiesPositive(items) && item.quantity >= 1 ==> QuantitiesPositive(AddedItems(items, promotions, item))
  {
    var r := AddedItems(items, promotions, item);
    forall x | x in r
      ensures SnapshotsMatch(items) && x.promotion.Some? ==>
        x.promotion.value.category == x.category && MatchSize(x.promotion.value) == x.size
      ensures QuantitiesPositive(items) && item.quantity >= 1 ==> x.quantity >= 1
    {
      var k :| 0 <= k < |r| && r[k] == x;
      if k < |items| { assert items[k] in items; }
    }
  }

  /** Removing keeps both invariants: what is left is a sub-list. */
  lemma RemoveKeepsInvariants(items: seq<LineItem>, arg: RemoveArg)
    ensures SnapshotsMatch(items) ==> SnapshotsMatch(Removed(items, arg))
    ensures QuantitiesPositive(items) ==> QuantitiesPositive(Removed(items, arg))
  {
  }

  /** The one-step quantity edits keep both invariants. */
  lemma StepKeepsInvariants(items: seq<LineItem>, index: int)
    ensures SnapshotsMatch(items) ==> SnapshotsMatch(Increased(items, index)) && SnapshotsMatch(Decreased(items, index))
    ensures QuantitiesPositive(items) ==> QuantitiesPositive(Increased(items, index)) && QuantitiesPositive(Decreased(items, index))
  {
    forall x | x in Increased(items, index)
      ensures SnapshotsMatch(items) && x.promotion.Some? ==>
        x.promotion.value.category == x.category && MatchSize(x.promotion.value) == x.size
      ensures QuantitiesPositive(items) ==> x.quantity >= 1
    {
      var k :| 0 <= k < |items| && Increased(items, index)[k] == x;
      assert items[k] in items;
    }
    forall x | x in Decreased(items, index)
      ensures SnapshotsMatch(items) && x.promotion.Some? ==>
        x.promotion.value.category == x.category && MatchSize(x.promotion.value) == x.size
      ensures QuantitiesPositive(items) ==> x.quantity >= 1
    {
      var k :| 0 <= k < |items| && Decreased(items, index)[k] == x;
      assert items[k] in items;
    }
  }

  /** Setting a quantity keeps both invariants (a value below 1 is raised to 1). */
  lemma UpdateKeepsInvariants(items: seq<LineItem>, name: string, size: string, n: int)
    ensures SnapshotsMatch(items) ==> SnapshotsMatch(QuantityUpdated(items, name, size, n))
    ensures QuantitiesPositive(items) ==> QuantitiesPositive(QuantityUpdated(items, name, size, n))
  {
    forall x | x in QuantityUpdated(items, name, size, n)
      ensures SnapshotsMatch(items) && x.promotion.Some? ==>
        x.promotion.value.category == x.category && MatchSize(x.promotion.value) == x.size
      ensures QuantitiesPositive(items) ==> x.quantity >= 1
    {
      var k :| 0 <= k < |items| && QuantityUpdated(items, name, size, n)[k] == x;
      assert items[k] in items;
    }
  }

  /** The two branches of addToCart. */
  lemma AddedItemsByCase(items: seq<LineItem>, promotions: seq<Promotion>, item: NewItem)
    ensures FindEntry(items, item.name, item.size).Some? ==>
      var j := FindEntry(items, item.name, item.size).value;
      AddedItems(items, promotions, item) == items[j := items[j].(quantity := items[j].quantity + item.quantity)]
    ensures FindEntry(items, item.name, item.size).None? ==>
      AddedItems(items, promotions, item) == items + [NewEntry(item, FindPromotion(promotions, item.category, item.size))]
  {
  }

  /** In a cart whose snapshots match their entries, a snapshot that spells its size `size`
      is priced by the entry's own size, while one that spells it only `Size` is always
      priced at `priceLrg`. */
  lemma SnapshotPricing(items: seq<LineItem>, x: LineItem)
    requires SnapshotsMatch(items) && x in items && x.promotion.Some?
    ensures var p := x.promotion.value;
      && (p.size != "" ==> p.size == x.size &&
                           BundlePrice(p) == if x.size == "reg" then p.priceReg else p.priceLrg)
      && (p.size == "" ==> p.capitalSize == x.size && BundlePrice(p) == p.priceLrg)
  {
  }

  /** A promotion stored with `Size: "reg"` and no `size` is attached to a regular item, and
      the bundle of two regular units is then charged `priceLrg`: 700 where the units cost 600. */
  lemma CapitalSizeChargedLarge()
    ensures var p := Promotion("p", "tea", "", "reg", 2, 500, 700, true, "2 for 5");
            var cart := AddedItems([], [p], NewItem("t", "Tea", "", "tea", "reg", 300, 2));
            && FindPromotion([p], "tea", "reg") == Some(p)
            && |cart| == 1 && cart[0].promotion == Some(p)
            && Subtotal(cart) == 600 && PromoTotal(cart) == 700 && PromoDiscount(cart) == 0
  {
    var p := Promotion("p", "tea", "", "reg", 2, 500, 700, true, "2 for 5");
    var item := NewItem("t", "Tea", "", "tea", "reg", 300, 2);
    assert FindPromotion([p], "tea", "reg") == Some(p);
    var x := NewEntry(item, Some(p));
    assert AddedItems([], [p], item) == [x];
    var g := PromoGroup(GroupKey(x), p, 2, [x]);
    assert [x][..0] == [];
    assert Groups([x]) == [g];
    assert Subtotal([x]) == 600;
    assert [g][..0] == [];
    assert Sets(g) == 1;
    assert [x][1..] == [];
    assert FrontPrice([x], 2) == 600;
    assert Filter([x], Unpromoted) == [];
  }

  predicate IsActive(p: Promotion) { p.active }

  // ---------------------------------------------------------------------------
  // The provider
  // ---------------------------------------------------------------------------

  /** The cart provider: the entry list and the active promotions it attaches from. */
  class CartStore {
    var cartItems: seq<LineItem>
    var promotions: seq<Promotion>

    ghost predicate Valid()
      reads this
    {
      SnapshotsMatch(cartItems) && forall p :: p in promotions ==> p.active
    }

    /** A fresh provider with an empty cart; restoring a saved cart is not modelled. */
    constructor ()
      ensures Valid() && cartItems == [] && promotions == []
    {
      cartItems := [];
      promotions := [];
    }

    /** The snapshot listener of lines 26-30: keep only the active promotions. */
    method ReceivePromotions(snapshot: seq<Promotion>)
      requires Valid()
      modifies this`promotions
      ensures Valid()
      ensures promotions == Filter(snapshot, IsActive)
      ensures forall p :: p in promotions <==> p in snapshot && p.active
    {
      promotions := Filter(snapshot, IsActive);
    }

    method AddToCart(item: NewItem)
      requires Valid()
      modifies this`cartItems
      ensures Valid()
      ensures cartItems == AddedItems(old(cartItems), promotions, item)
      ensures old(QuantitiesPositive(cartItems)) && item.quantity >= 1 ==> QuantitiesPositive(cartItems)
    {
      ghost var before := cartItems;
      AddKeepsInvariants(before, promotions, item);
      AddedItemsByCase(before, promotions, item);
      var promotion := FindPromotion(promotions, item.category, item.size);
      var existingIndex := FindEntry(cartItems, item.name, item.size);
      match existingIndex {
        case Some(j) =>
          cartItems := cartItems[j := cartItems[j].(quantity := cartItems[j].quantity + item.quantity)];
        case None =>
          cartItems := cartItems + [NewEntry(item, promotion)];
      }
      assert cartItems == AddedItems(before, promotions, item);
    }

    method RemoveFromCart(arg: RemoveArg)
      requires Valid()
      modifies this`cartItems
      ensures Valid()
      ensures cartItems == Removed(old(cartItems), arg)
      ensures old(QuantitiesPositive(cartItems)) ==> QuantitiesPositive(cartItems)
    {
      RemoveKeepsInvariants(cartItems, arg);
      cartItems := Removed(cartItems, arg);
    }

    method IncreaseQuantity(index: int)
      requires Valid()
      modifies this`cartItems
      ensures Valid()
      ensures cartItems == Increased(old(cartItems), index)
      ensures old(QuantitiesPositive(cartItems)) ==> QuantitiesPositive(cartItems)
    {
      StepKeepsInvariants(cartItems, index);
      cartItems := Increased(cartItems, index);
    }

    method DecreaseQuantity(index: int)
      requires Valid()
      modifies this`cartItems
      ensures Valid()
      ensures cartItems == Decreased(old(cartItems), index)
      ensures old(QuantitiesPositive(cartItems)) ==> QuantitiesPositive(cartItems)
    {
      StepKeepsInvariants(cartItems, index);
      cartItems := Decreased(cartItems, index);
    }

    method UpdateQuantity(name: string, size: string, newQuantity: int)
      requires Valid()
      modifies this`cartItems
      ensures Valid()
      ensures cartItems == QuantityUpdated(old(cartItems), name, size, newQuantity)
      ensures old(QuantitiesPositive(cartItems)) ==> QuantitiesPositive(cartItems)
    {
      UpdateKeepsInvariants(cartItems, name, size, newQuantity);
      cartItems := QuantityUpdated(cartItems, name, size, newQuantity);
    }

    /** clearCart: empties a non-empty cart; an empty cart is left as it is. */
    method ClearCart()
      requires Valid()
      modifies this`cartItems
      ensures Valid()
      ensures cartItems == []
      ensures GetSubtotal() == 0 && PromoTotal(cartItems) == 0 && PromoDiscount(cartItems) == 0
    {
      if |cartItems| > 0 {
        cartItems := [];
      }
    }

    function GetSubtotal(): int
      reads this
    {
      Subtotal(cartItems)
    }

    function GetTotalItems(): int
      reads this
    {
      TotalItems(cartItems)
    }

    method CalculatePromoDiscount() returns (discount: int)
      ensures discount == PromoDiscount(cartItems)
      ensures discount >= 0
    {
      discount := ComputePromoDiscount(cartItems);
    }

    /** calculateTotal(includeDiscount): the promoted total, or the plain subtotal. */
    method CalculateTotal(includeDiscount: bool) returns (total: int)
      ensures total == PromoPricing.CalculateTotal(cartItems, includeDiscount)
      ensures !includeDiscount ==> total == GetSubtotal()
    {
      if includeDiscount {
        total := ComputePromoTotal(cartItems);
      } else {
        total := GetSubtotal();
      }
    }
  }
}
