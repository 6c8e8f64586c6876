/** The data half of src/config.js: the Firestore schemas that validation reads and the two
    promotion-type price formulas. */
module Config {
  import opened Wrappers
  import opened Seqs
  import opened CartItems
  import opened PromoPricing

  /** The required and optional field lists of one collection. */
  datatype Schema = Schema(requiredFields: seq<string>, optionalFields: seq<string>)

  const ProductsSchema: Schema :=
    Schema(["name", "price", "category"], ["size", "description", "image", "calories", "featured", "toppings"])
  const CategoriesSchema: Schema :=
    Schema(["value", "displayName"], ["description", "image"])
  const PromotionsSchema: Schema :=
    Schema(["active", "category", "price"], ["size", "requiredQuantity", "type"])

  /** The own keys of `promotionTypes`. */
  const PromotionTypeNames: seq<string> := ["fixedPrice", "buyOneGetOne"]

  /** The promotion record a type formula reads: its count (0 when absent) and its `price`. */
  datatype PricedPromotion = PricedPromotion(requiredQuantity: nat, price: int)

  /** `promotionTypes.fixedPrice.calculate`: a fixed price per complete set of units. */
  function FixedPrice(items: seq<LineItem>, promo: PricedPromotion): (r: int)
    ensures 0 <= TotalItems(items) < OrOne(promo.requiredQuantity) ==> r == 0
  {
    (TotalItems(items) / OrOne(promo.requiredQuantity)) * promo.price
  }

  /** `promotionTypes.buyOneGetOne.calculate`: every second unit at the first item's price.
      On an empty list the source reads `items[0].price` of `undefined` and throws. */
  function BuyOneGetOne(items: seq<LineItem>, promo: PricedPromotion): (r: Result<int>)
    ensures r.Err? <==> |items| == 0
    ensures r.Ok? && 0 <= TotalItems(items) < 2 ==> r.value == 0
  {
    if |items| == 0 then Err("TypeError: Cannot read properties of undefined (reading 'price')")
    else Ok((TotalItems(items) / 2) * items[0].price)
  }

  /** The fixed-price formula sees only the total number of units, not how they are split. */
  lemma FixedPriceDependsOnlyOnTotal(a: seq<LineItem>, b: seq<LineItem>, promo: PricedPromotion)
    requires TotalItems(a) == TotalItems(b)
    ensures FixedPrice(a, promo) == FixedPrice(b, promo)
  {
  }

  lemma DivMonotone(x: int, y: int, d: nat)
    requires d >= 1 && x <= y
    ensures x / d <= y / d
  {
    if x / d > y / d {
      MultiplyMonotone(d, y / d + 1, x / d);
    }
  }

  lemma ScaleMonotone(x: int, y: int, p: int)
    requires x <= y && p >= 0
    ensures x * p <= y * p
  {
    if p > 0 {
      MultiplyMonotone(p, x, y);
    }
  }

  /** With a non-negative price, more units never cost less under the fixed-price formula. */
  lemma FixedPriceMonotone(a: seq<LineItem>, b: seq<LineItem>, promo: PricedPromotion)
    requires promo.price >= 0 && TotalItems(a) <= TotalItems(b)
    ensures FixedPrice(a, promo) <= FixedPrice(b, promo)
  {
    var d := OrOne(promo.requiredQuantity);
    DivMonotone(TotalItems(a), TotalItems(b), d);
    ScaleMonotone(TotalItems(a) / d, TotalItems(b) / d, promo.price);
  }

  /** With a non-negative first price, more units never cost less under buy-one-get-one. */
  lemma BuyOneGetOneMonotone(a: seq<LineItem>, b: seq<LineItem>, promo: PricedPromotion)
    requires |a| > 0 && |b| > 0 && a[0].price == b[0].price && a[0].price >= 0
    requires TotalItems(a) <= TotalItems(b)
    ensures BuyOneGetOne(a, promo).value <= BuyOneGetOne(b, promo).value
  {
    DivMonotone(TotalItems(a), TotalItems(b), 2);
    ScaleMonotone(TotalItems(a) / 2, TotalItems(b) / 2, a[0].price);
  }

  /** The cart engine charges each promotion group exactly the fixed-price formula applied to
      the group's members at the promotion's bundle price. */
  lemma EngineBundlesAreFixedPrice(items: seq<LineItem>, j: nat)
    requires j < |Groups(items)|
    ensures var g := Groups(items)[j];
            Sets(g) * BundlePrice(g.promotion) ==
            FixedPrice(g.items, PricedPromotion(g.promotion.requiredQuantity, BundlePrice(g.promotion)))
  {
    GroupsCorrect(items);
    assert GroupExact(items, Groups(items)[j]);
  }
}
