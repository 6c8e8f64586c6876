/** The values the cart holds: promotions and line items, and the plain sums over them
    (src/contexts/CartContext.jsx). Prices are whole pence. */
module CartItems {
  import opened Wrappers
  import opened Seqs

  /** A multi-buy promotion as stored in the promotion collection. `requiredQuantity == 0`
      stands for a missing or zero value, which the pricing code replaces by 1. The
      `active || Active` and `category || Category` spellings are normalised to one field;
      `size` and `Size` are kept apart, because the lookup reads either and the pricing
      reads `size` alone. */
  datatype Promotion = Promotion(
    id: string,
    category: string,
    size: string,
    capitalSize: string,
    requiredQuantity: nat,
    priceReg: int,
    priceLrg: int,
    active: bool,
    description: string)

  /** One cart entry. An empty string stands for a missing (falsy) text field. The promotion
      is the snapshot taken when the entry was first added. */
  datatype LineItem = LineItem(
    id: string,
    name: string,
    title: string,
    category: string,
    size: string,
    price: int,
    quantity: int,
    promotion: Option<Promotion>)

  /** What a caller hands to addToCart: a line item before its promotion is resolved. */
  datatype NewItem = NewItem(
    id: string,
    name: string,
    title: string,
    category: string,
    size: string,
    price: int,
    quantity: int)

  function LineCost(x: LineItem): int { x.price * x.quantity }

  function Quantity(x: LineItem): int { x.quantity }

  predicate Promoted(x: LineItem) { x.promotion.Some? }

  predicate Unpromoted(x: LineItem) { x.promotion.None? }

  /** getSubtotal: the regular price of every unit in the cart. */
  function Subtotal(items: seq<LineItem>): int { SumOver(items, LineCost) }

  /** getTotalItems: the number of units in the cart (`quantity || 0` is `quantity` on integers). */
  function TotalItems(items: seq<LineItem>): int { SumOver(items, Quantity) }

  /** `requiredQuantity || 1`: an absent or zero count means a single unit. */
  function OrOne(q: nat): (r: nat)
    ensures r >= 1
    ensures q > 0 ==> r == q
  {
    if q == 0 then 1 else q
  }

  /** `promotion.requiredQuantity || 1`. */
  function Required(p: Promotion): (r: nat)
    ensures r >= 1
    ensures p.requiredQuantity > 0 ==> r == p.requiredQuantity
  {
    OrOne(p.requiredQuantity)
  }

  /** `promo.size || promo.Size`: the size the promotion lookup compares with the item's. */
  function MatchSize(p: Promotion): string
  {
    if p.size != "" then p.size else p.capitalSize
  }

  /** The bundle price: chosen by the promotion's own `size`, not by the item's, and not by
      `Size`. */
  function BundlePrice(p: Promotion): int
  {
    if p.size == "reg" then p.priceReg else p.priceLrg
  }

  /** The key of a promotion group: `${category}-${size}`. */
  function GroupKey(x: LineItem): string { x.category + "-" + x.size }

  predicate QuantitiesPositive(items: seq<LineItem>)
  {
    forall x :: x in items ==> x.quantity >= 1
  }

  /** Every promotion snapshot matches the category and size of the entry that carries it. */
  predicate SnapshotsMatch(items: seq<LineItem>)
  {
    forall x :: x in items && x.promotion.Some? ==>
      x.promotion.value.category == x.category && MatchSize(x.promotion.value) == x.size
  }

  lemma SumAppendOne(items: seq<LineItem>, x: LineItem)
    ensures Subtotal(items + [x]) == Subtotal(items) + LineCost(x)
    ensures TotalItems(items + [x]) == TotalItems(items) + x.quantity
  {
    assert (items + [x])[..|items|] == items;
  }
}
