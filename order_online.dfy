/** The checkout payload of src/components/OrderOnlineSection.jsx: each cart entry is
    sanitised into a line, unusable lines are dropped, and an empty result is refused
    before any request is built. */
module OrderOnline {
  import opened Wrappers
  import opened Seqs
  import opened CartItems
  import opened PromoPricing

  datatype CheckoutLine = CheckoutLine(id: string, name: string, size: string, price: int, quantity: int)

  /** The request body: the sanitised lines and the promoted cart total. */
  datatype CheckoutRequest = CheckoutRequest(cartItems: seq<CheckoutLine>, totalAmount: int)

  /** One entry as sent: `name || 'Unknown Item'`, `size || 'reg'`, `Number(price) || 0`
      (the price itself, on integers) and `parseInt(quantity, 10) || 1` (a zero becomes 1). */
  function SanitizeLine(x: LineItem): CheckoutLine
  {
    CheckoutLine(x.id,
                 if x.name != "" then x.name else "Unknown Item",
                 if x.size != "" then x.size else "reg",
                 x.price,
                 if x.quantity != 0 then x.quantity else 1)
  }

  predicate Sendable(l: CheckoutLine)
  {
    l.price > 0 && l.quantity > 0
  }

  /** The lines sent: the sanitised entries with a positive price and quantity. */
  function SanitizedLines(items: seq<LineItem>): (r: seq<CheckoutLine>)
    ensures |r| <= |items|
    ensures forall l :: l in r <==> Sendable(l) && exists x :: x in items && l == SanitizeLine(x)
  {
    var mapped := MapSeq(items, SanitizeLine);
    forall l ensures l in mapped <==> exists x :: x in items && l == SanitizeLine(x) {
      if l in mapped {
        var k :| 0 <= k < |mapped| && mapped[k] == l;
        assert items[k] in items;
      }
      if exists x :: x in items && l == SanitizeLine(x) {
        var x :| x in items && l == SanitizeLine(x);
        var k :| 0 <= k < |items| && items[k] == x;
        assert mapped[k] == l;
      }
    }
    Filter(mapped, Sendable)
  }

  /** Lines keep the order of their entries: sanitising a concatenation concatenates. */
  lemma SanitizedLinesAppend(a: seq<LineItem>, b: seq<LineItem>)
    ensures SanitizedLines(a + b) == SanitizedLines(a) + SanitizedLines(b)
  {
    MapSeqAppend(a, b, SanitizeLine);
    FilterAppend(MapSeq(a, SanitizeLine), MapSeq(b, SanitizeLine), Sendable);
  }

  /** The request handleCheckout sends, or the error it raises before sending. */
  function Checkout(items: seq<LineItem>): (r: Result<CheckoutRequest>)
    ensures r.Err? <==> |SanitizedLines(items)| == 0
    ensures r.Err? ==> r.error == "No valid items in cart"
    ensures r.Ok? ==> r.value.cartItems == SanitizedLines(items) && |r.value.cartItems| > 0
    ensures r.Ok? ==> r.value.totalAmount == CalculateTotal(items, true)
  {
    var lines := SanitizedLines(items);
    if |lines| == 0 then Err("No valid items in cart")
    else Ok(CheckoutRequest(lines, CalculateTotal(items, true)))
  }

  /** Each entry is represented by a line exactly when its price and (defaulted) quantity are
      positive: a free entry is never submitted, even though it is in the cart, and an entry
      whose quantity is 0 is sent as one unit. */
  lemma EntrySubmittedIff(items: seq<LineItem>, x: LineItem)
    requires x in items
    ensures SanitizeLine(x) in SanitizedLines(items) <==> x.price > 0 && x.quantity >= 0
    ensures x.quantity == 0 ==> SanitizeLine(x).quantity == 1
    ensures SanitizeLine(x).id == x.id
  {
  }

  /** An empty cart, or one holding only free entries, is refused. */
  lemma NothingSendableRefused(items: seq<LineItem>)
    requires forall x :: x in items ==> x.price <= 0
    ensures Checkout(items) == Err("No valid items in cart")
  {
    var mapped := MapSeq(items, SanitizeLine);
    forall l | l in mapped ensures !Sendable(l) {
      var k :| 0 <= k < |mapped| && mapped[k] == l;
      assert items[k] in items;
    }
    FilterNone(mapped, Sendable);
  }
}
