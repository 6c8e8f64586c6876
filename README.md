# Bubble-tea storefront: cart, promotion pricing and the helpers around them

This project models the shopping logic of a bubble-tea shop's React/Firebase storefront.

The centre is the cart provider (`src/contexts/CartContext.jsx`). It is modelled as the class
`CartContext.CartStore`, whose `cartItems` field holds a sequence of line items. Its
methods are the cart edits:

- add, with a merge on name and size;
- remove by id, or by name and size;
- increase, decrease and set a quantity;
- clear.

Each edit is proved equal to a pure function on the entry list. The pricing engine lives in
`PromoPricing`. It covers the subtotal, the unit count, the grouping of promoted entries by
`category-size`, bundles at a fixed price, and leftovers charged by walking from the front
of the group. It also covers the discount with its global clamp. Every loop of the source is
a `while` loop whose invariants tie it to a recursive specification function.

Around the cart sit the smaller helpers:

- the basket view's promotion hints (`CartModal`);
- the promotion-type formulas and the Firestore schemas (`Config`);
- the checkout payload (`OrderOnline`);
- the menu page's selection summary, item construction, quantity stepper, total and order
  guard (`MenuSection`);
- the record preparation of the Firestore service (`FirebaseService`);
- the bulk product import (`UploadProducts`);
- the admin order list's filter, search and in-place sort (`OrdersPanel`);
- the order card's status and prep-time controls (`OrderCard`);
- the de-duplication of products and promotions and the category tabs (`Catalog`,
  `AdminPanel`).

Common JavaScript behaviour has its own modules:

- string operations (`JsStrings`);
- `Map`-based de-duplication (`JsMaps`);
- loosely typed records and truthiness (`JsValues`);
- list filters and sums (`Seqs`).

Prices are whole pence (integers). A missing or falsy text field is the empty string. A
missing `requiredQuantity` is 0, which the code turns into 1.

## Model

| member | source | states |
|---|---|---|
| CartItems.OrOne | src/contexts/CartContext.jsx:134 | `requiredQuantity \|\| 1` is at least 1 and is the count itself when the count is set |
| CartContext.FindPromotion | src/contexts/CartContext.jsx:38-40 | None exactly when no promotion matches the category and the size (`size`, or `Size` when `size` is missing); otherwise a matching promotion with no match before it (the first one) |
| CartContext.FindEntry | src/contexts/CartContext.jsx:43-45 | None exactly when no entry has the name and size; otherwise the index of the first entry that has them |
| CartContext.EntryName | src/contexts/CartContext.jsx:51 | a new entry's name is the item's name, else its title, else "Unknown Item", and is never empty (the same fallback as `getItemName`, src/components/ui/CartModal.jsx:27) |
| CartContext.AddedItems | src/contexts/CartContext.jsx:37-57 | merging raises only the matched entry by the added quantity and keeps its promotion snapshot and every other entry; otherwise exactly one entry is appended, with the fallback name and the first matching promotion; units and subtotal grow by the added quantity and its price |
| CartContext.AddedItemsByCase | src/contexts/CartContext.jsx:46-53 | the two branches of addToCart as whole-list equations |
| CartContext.MergeTotals | src/contexts/CartContext.jsx:47 | raising one entry by n adds n units and n times that entry's price to the subtotal |
| CartContext.Removed | src/contexts/CartContext.jsx:59-70 | an object with an id drops exactly the entries with that id; otherwise one with a name and size drops exactly the entries with both; any other argument changes nothing; survivors keep their order |
| CartContext.Increased | src/contexts/CartContext.jsx:72-78 | only the indexed entry changes, gaining one unit; an out-of-range index changes nothing |
| CartContext.Decreased | src/contexts/CartContext.jsx:80-86 | only the indexed entry changes, losing one unit but never going below 1 |
| CartContext.QuantityUpdated | src/contexts/CartContext.jsx:88-97 | every entry with the name and size gets `max(1, n)`; every other entry is untouched |
| CartContext.DecreaseUndoesIncrease | src/contexts/CartContext.jsx:72-86 | decreasing after increasing the same entry restores the cart when that entry had at least one unit |
| CartContext.IncreaseAddsOneUnit | src/contexts/CartContext.jsx:72-78 | an in-range increase adds exactly one unit to getTotalItems; an out-of-range one is the identity |
| CartContext.UpdateQuantityIdempotent | src/contexts/CartContext.jsx:88-97 | setting the same quantity twice equals setting it once |
| CartContext.NamelessItemNeverMerges | src/contexts/CartContext.jsx:43-53 | an item without a name never matches a stored entry (whose name was filled in), so each add of it appends |
| CartContext.AddTwiceMerges | src/contexts/CartContext.jsx:43-47 | adding the same name and size twice leaves one entry holding both quantities |
| CartContext.AddKeepsInvariants | src/contexts/CartContext.jsx:37-57 | adding keeps every promotion snapshot matching its entry's category and size (its `size`, or `Size` when `size` is missing), and keeps quantities at least 1 when the added quantity is |
| CartContext.SnapshotPricing | src/contexts/CartContext.jsx:135 | in a cart whose snapshots match their entries (the provider's invariant), a snapshot with a `size` is priced by its entry's size, and one with only `Size` is always priced at `priceLrg` |
| CartContext.CapitalSizeChargedLarge | src/contexts/CartContext.jsx:37-40 | a promotion with `Size: "reg"` and no `size` is attached to a regular item, and two regular units at 300 then cost 700 with promotions against 600 without, with no discount reported |
| CartContext.RemoveKeepsInvariants | src/contexts/CartContext.jsx:59-70 | removing keeps both invariants |
| CartContext.StepKeepsInvariants | src/contexts/CartContext.jsx:72-86 | increase and decrease keep both invariants |
| CartContext.UpdateKeepsInvariants | src/contexts/CartContext.jsx:88-97 | setting a quantity keeps both invariants |
| CartContext.CartStore.constructor | src/contexts/CartContext.jsx:12-17 | a fresh provider has an empty cart and no promotions |
| CartContext.CartStore.ReceivePromotions | src/contexts/CartContext.jsx:26-30 | the stored promotions are exactly the active ones of the snapshot, in order |
| CartContext.CartStore.AddToCart | src/contexts/CartContext.jsx:37-57 | the new cart is AddedItems of the old one; the snapshot invariant is kept |
| CartContext.CartStore.RemoveFromCart | src/contexts/CartContext.jsx:59-70 | the new cart is Removed of the old one |
| CartContext.CartStore.IncreaseQuantity | src/contexts/CartContext.jsx:72-78 | the new cart is Increased of the old one |
| CartContext.CartStore.DecreaseQuantity | src/contexts/CartContext.jsx:80-86 | the new cart is Decreased of the old one |
| CartContext.CartStore.UpdateQuantity | src/contexts/CartContext.jsx:88-97 | the new cart is QuantityUpdated of the old one |
| CartContext.CartStore.ClearCart | src/contexts/CartContext.jsx:99-104 | the cart is empty afterwards (an empty cart is left alone); subtotal, promoted total and discount are then 0 |
| CartContext.CartStore.CalculatePromoDiscount | src/contexts/CartContext.jsx:110-164 | returns PromoDiscount of the cart, which is never negative |
| CartContext.CartStore.CalculateTotal | src/contexts/CartContext.jsx:229-234 | with the discount it is the promoted total; without it, it is getSubtotal |
| PromoPricing.GroupsCorrect | src/contexts/CartContext.jsx:117-130 | the groups hold exactly the promoted entries: one group per `category-size` key, its members in cart order, its total their units, its promotion the first member's snapshot; unpromoted entries are in no group |
| PromoPricing.CollectPromoGroups | src/contexts/CartContext.jsx:117-130 | the forEach that builds `promoGroups` yields Groups(items), which satisfies GroupsOf |
| PromoPricing.FrontUnitsExact | src/contexts/CartContext.jsx:137-148 | with non-negative quantities, the front walk takes exactly n units whenever the group holds n |
| PromoPricing.FrontPriceUniform | src/contexts/CartContext.jsx:142-148 | where every member has unit price p, the first n units cost n times p |
| PromoPricing.ConsumeFront | src/contexts/CartContext.jsx:142-148 | the walk's price is FrontPrice; the remaining count ends at 0 whenever the group holds the units asked for (also the walk of lines 198-204) |
| PromoPricing.GroupDiscount | src/contexts/CartContext.jsx:137-155 | a group's saving is never negative, is 0 when no bundle forms, and is at least the regular price of the bundled units minus the bundles' price |
| PromoPricing.PromoDiscount | src/contexts/CartContext.jsx:110-164 | the discount is never negative; it is 0 when the bundles together cost more than the units they cover, and otherwise the sum of the group savings |
| PromoPricing.DiscountGroup | src/contexts/CartContext.jsx:133-156 | one group's saving, bundle price and regular price of the bundled units, each equal to its specification |
| PromoPricing.SumGroupDiscounts | src/contexts/CartContext.jsx:132-157 | the three accumulators equal the sums over the groups of the saving, the bundle price and the bundled units' regular price |
| PromoPricing.ComputePromoDiscount | src/contexts/CartContext.jsx:110-164 | the imperative discount computation equals PromoDiscount and is non-negative |
| PromoPricing.PriceGroup | src/contexts/CartContext.jsx:186-211 | one group's promoted price: bundles plus leftover units at the regular price, or everything at the regular price when no bundle forms |
| PromoPricing.SumUnpromoted | src/contexts/CartContext.jsx:213-217 | the loop over the cart adds exactly the subtotal of the unpromoted entries |
| PromoPricing.ComputePromoTotal | src/contexts/CartContext.jsx:166-220 | the imperative promoted total equals PromoTotal |
| PromoPricing.SubtotalPartition | src/contexts/CartContext.jsx:117-130 | the groups' subtotals plus the unpromoted entries' subtotal make up the whole subtotal |
| PromoPricing.GroupSaving | src/contexts/CartContext.jsx:137-210 | in a group with one unit price whose bundle is no dearer than its units, the bundles cost no more than the units they replace, and the saving is the group's subtotal minus its promoted price |
| PromoPricing.SetsSplit | src/contexts/CartContext.jsx:191-196 | the whole bundles and the remainder make up the group's units, and each part lies between 0 and the total |
| PromoPricing.PromoTotalIsSubtotalLessDiscount | src/contexts/CartContext.jsx:110-234 | with one unit price per group and no bundle dearer than its units, calculateTotal(true) is getSubtotal() minus calculatePromoDiscount() and never exceeds the subtotal |
| PromoPricing.PricingWithoutPromotions | src/contexts/CartContext.jsx:110-220 | a cart with no promoted entry has no discount and its promoted total is its subtotal |
| PromoPricing.BundleExample | src/contexts/CartContext.jsx:110-220 | a 3-for-500 promotion with seven units at 200 gives subtotal 1400, total 1200 and discount 200 |
| PromoPricing.TwoGroups | src/contexts/CartContext.jsx:117-130 | two promoted entries with different keys form two groups in cart order |
| PromoPricing.OneBundleGroup | src/contexts/CartContext.jsx:137-210 | an entry holding exactly one bundle is charged exactly the bundle price |
| PromoPricing.AggregateClampMasksLosingGroup | src/contexts/CartContext.jsx:155-161 | the clamp applies across all groups together: a group whose bundle costs more than its units can cancel another group's saving, so the total is not subtotal minus discount |
| CartModal.IsPromotionApplied | src/components/ui/CartModal.jsx:29-37 | false without a promotion; otherwise true exactly when the units of every entry with the same category and size, promoted or not, reach `requiredQuantity \|\| 1` |
| CartModal.EncouragementMessage | src/components/ui/CartModal.jsx:50 | the hint starts with "Add N more item", and says "items" exactly when N is above 1 |
| CartModal.Encouragement | src/components/ui/CartModal.jsx:39-53 | a hint exactly for a promoted entry whose slot falls short, naming the missing unit count and the promotion's description |
| CartModal.PromoPriceForItem | src/components/ui/CartModal.jsx:55-66 | 0 when the promotion is not applied; otherwise at least one whole set times the bundle price chosen by the promotion's size |
| CartModal.AppliedIffNoHint | src/components/ui/CartModal.jsx:29-53 | a promoted entry is marked applied exactly when it carries no hint; an entry without a promotion gets neither mark nor hint |
| CartModal.ViewCountsUnpromotedEntries | src/components/ui/CartModal.jsx:32-36 | the view can show a promotion as applied while the checkout grants no discount, because it counts an entry that has no promotion snapshot |
| Config.FixedPrice | src/config.js:83-91 | a fixed price per complete set; 0 whenever the units fall short of one set |
| Config.BuyOneGetOne | src/config.js:92-97 | an error exactly on an empty list (the read of `items[0]` throws); 0 below two units |
| Config.FixedPriceDependsOnlyOnTotal | src/config.js:85-89 | the fixed-price formula depends only on the total unit count, not on how it is split |
| Config.FixedPriceMonotone | src/config.js:83-91 | with a non-negative price, more units never cost less |
| Config.BuyOneGetOneMonotone | src/config.js:92-97 | with a non-negative first price, more units never cost less |
| Config.EngineBundlesAreFixedPrice | src/config.js:83-91 | each group's bundle charge in the cart engine is the fixed-price formula applied to the group at its bundle price |
| OrderOnline.SanitizedLines | src/components/OrderOnlineSection.jsx:27-35 | the lines sent are exactly the sanitised entries with positive price and quantity, and there are never more than cart entries |
| OrderOnline.SanitizedLinesAppend | src/components/OrderOnlineSection.jsx:27-35 | sanitising a concatenation concatenates, so lines keep cart order |
| OrderOnline.EntrySubmittedIff | src/components/OrderOnlineSection.jsx:29-35 | an entry is sent exactly when its price is positive and its quantity is not negative; a zero quantity goes out as 1; the id is kept |
| OrderOnline.Checkout | src/components/OrderOnlineSection.jsx:37-52 | "No valid items in cart" exactly when nothing is sendable; otherwise the request carries the sanitised lines and calculateTotal(true) |
| OrderOnline.NothingSendableRefused | src/components/OrderOnlineSection.jsx:35-39 | a cart of only free entries (or an empty one) is refused |
| MenuSection.SyncEntry | src/components/MenuSection.jsx:204-222 | one forEach step folds an entry into its product's selection of that size, or opens it |
| MenuSection.SyncSelectedItems | src/components/MenuSection.jsx:201-223 | the loop's summary equals SelectionsOf(cart) |
| MenuSection.SelectionsCorrect | src/components/MenuSection.jsx:201-223 | for each product id and size in the cart, the summary holds one selection whose quantity is the sum over those entries and whose price is the first such entry's; otherwise nothing |
| MenuSection.SelectedUnitsMatchCart | src/components/MenuSection.jsx:204-223 | the summary shows exactly as many units as the cart holds |
| MenuSection.SelectionsOnePerPair | src/components/MenuSection.jsx:206-221 | no product appears twice in the summary, and no size twice within a product |
| MenuSection.FirstPair | src/components/MenuSection.jsx:210-212 | the first entry with a product id and size, or None exactly when there is none (and then the pair has no units) |
| MenuSection.ConfirmAdd | src/components/MenuSection.jsx:290-304 | nothing without an open product; otherwise an item with its id, name, category and the chosen quantity, priced `priceReg` for "reg" and `priceLrg` otherwise |
| MenuSection.ConfirmedItemAppended | src/components/MenuSection.jsx:290-300 | a confirmed item the cart does not hold yet becomes its new last entry, priced by the chosen size |
| MenuSection.StepDown | src/components/MenuSection.jsx:451 | the minus button never goes below 1 and otherwise subtracts one |
| MenuSection.StepUp | src/components/MenuSection.jsx:460 | the plus button raises the quantity |
| MenuSection.StepRoundTrip | src/components/MenuSection.jsx:451-460 | plus then minus returns to any quantity the dialog can show |
| MenuSection.MenuTotal | src/components/MenuSection.jsx:324-327 | the menu page's total is the promotion-free subtotal |
| MenuSection.MenuTotalIgnoresPromotions | src/components/MenuSection.jsx:324-327 | the menu page can show more than the checkout charges |
| MenuSection.OrderNow | src/components/MenuSection.jsx:315-322 | an empty cart raises the alert; any other cart opens the checkout |
| FirebaseService.MissingFields | src/services/firebaseService.js:15 | the missing fields are exactly the required fields that are undefined |
| FirebaseService.MissingFieldsAppend | src/services/firebaseService.js:15-17 | the missing fields keep schema order: for a schema split in two, they are the first part's missing fields followed by the second's |
| FirebaseService.MissingFieldsOnce | src/services/firebaseService.js:15-17 | a field is listed as missing at most as often as the schema names it, so each missing field of a schema without repeats is listed once |
| FirebaseService.ValidateData | src/services/firebaseService.js:13-19 | no error exactly when every required field is defined; otherwise the message names the collection and lists the missing fields in schema order |
| FirebaseService.SanitizeValue | src/services/firebaseService.js:38 | length is kept, allowed characters are kept, every other character becomes '-', and only allowed characters remain |
| FirebaseService.SanitizeIdempotent | src/services/firebaseService.js:38 | sanitising twice equals sanitising once |
| FirebaseService.SanitizeFixedPoint | src/services/firebaseService.js:38 | a value is left unchanged exactly when it has only allowed characters |
| FirebaseService.CopyOptionalFields | src/services/firebaseService.js:50-54 | the forEach that assigns optional fields yields WithOptionalFields |
| FirebaseService.OptionalFieldsCopied | src/services/firebaseService.js:79-83 | exactly the listed fields that the input defines are copied, with their values; every other key keeps its prepared value |
| FirebaseService.AddCategory | src/services/firebaseService.js:32-62 | a category is written exactly when it validates, its value is a string and the sanitised value is non-empty; the document id is the sanitised value, which is also the stored value; the record written is the sanitised value, the display name, both timestamps and exactly the defined optional fields; a validation failure returns its message, an empty sanitised id the empty-path error and a value that is not a string the TypeError of `replace` |
| FirebaseService.UpdateCategory | src/services/firebaseService.js:64-90 | succeeds exactly when validation passes and the id is not empty; writes the given id, storing the value unsanitised, the display name, the update timestamp and exactly the defined optional fields |
| FirebaseService.UpdateCategoryKeepsRawValue | src/services/firebaseService.js:38-43 | "Milk Tea" is stored as "Milk-Tea" when added but as "Milk Tea" when updated |
| FirebaseService.CategoryFieldsPresent | src/config.js:71-74 | a category with `value` and `displayName` passes validation |
| FirebaseService.Stamped | src/services/firebaseService.js:121-125 | the spread record gains `updatedAt`, plus `createdAt` on add, and keeps every other field |
| FirebaseService.SaveProduct | src/services/firebaseService.js:155-168 | a product is written exactly when it validates and its id is a string or absent; a validation failure returns its message; with a truthy id it updates that document and returns the id; otherwise it adds under the fresh id and returns that |
| FirebaseService.RejectedForMissingPrice | src/services/firebaseService.js:116 | a product shaped like the admin form's (`priceReg`/`priceLrg`, no `price`) is refused with "Missing required fields for products: price" |
| FirebaseService.MissingOnlyPrice | src/config.js:68 | such a record misses exactly the `price` field |
| FirebaseService.CheckPromotionTypeAsWritten | src/services/firebaseService.js:197-199 | a truthy type passes exactly when the property lookup on `promotionTypes` is truthy, which includes inherited names; a refusal names the type |
| FirebaseService.CheckPromotionType | src/services/firebaseService.js:224-226 | a truthy type passes exactly when it names one of the two promotion types; the error names the type |
| FirebaseService.InheritedNameAcceptedAsType | src/services/firebaseService.js:197 | the check as written accepts `type: "toString"` |
| FirebaseService.TypeChecksAgreeOtherwise | src/services/firebaseService.js:197-199 | apart from inherited names the two checks agree; an absent type is accepted |
| FirebaseService.SavePromotion | src/services/firebaseService.js:243-256 | as written: a promotion is written exactly when it validates, passes the type check of lines 197 and 224 (inherited names included) and its id is a string or absent; each failure is the error that check throws; with a truthy id it updates that document and returns the id, otherwise it adds under the fresh id |
| FirebaseService.SavePromotionCorrected | src/services/firebaseService.js:191-241 | as intended: a promotion is written exactly when it validates, any truthy type names one of the two promotion types and its id is a string or absent; a validation or type failure returns its message; the write and the returned id are as in the save as written |
| FirebaseService.SavesAgreeOtherwise | src/services/firebaseService.js:197-199 | the save as written and the intended save agree on every record whose type is not an inherited property name |
| FirebaseService.InheritedTypeSaved | src/services/firebaseService.js:191-216 | a valid promotion with type "toString" is written under a fresh id by the save as written and refused by the intended one |
| UploadProducts.ValidIff | uploadProducts.js:18-21 | valid exactly when each of the five fields is neither undefined nor ''; falsy values such as 0, false and null pass |
| UploadProducts.WriteBatch.Set | uploadProducts.js:29-30 | one more staged write on a new document |
| UploadProducts.StagedAreValidProducts | uploadProducts.js:27-34 | the staged writes are exactly the valid products in input order, one new document each |
| UploadProducts.Upload | uploadProducts.js:23-34 | the batch holds StagedWrites and the skipped list is exactly the invalid products |
| UploadProducts.StagedOrSkipped | uploadProducts.js:27-34 | every product is either staged or skipped, never both |
| OrdersPanel.FilterOrders | src/components/OrdersPanel.jsx:72-75 | 'all' returns the input; any other status keeps exactly the orders with that status |
| OrdersPanel.FilterOrdersAppend | src/components/OrdersPanel.jsx:74 | filtering distributes over concatenation, so the kept orders stay in input order, each as often as in the input |
| OrdersPanel.SearchOrders | src/components/OrdersPanel.jsx:77-83 | keeps exactly the orders whose lower-cased email or name contains the lower-cased term |
| OrdersPanel.EmptySearchKeepsAll | src/components/OrdersPanel.jsx:77-83 | an empty term keeps every order |
| OrdersPanel.ParseSortOption | src/components/OrdersPanel.jsx:53-67 | the four option strings and nothing else select a comparator |
| OrdersPanel.CompareIsRankDifference | src/components/OrdersPanel.jsx:55-64 | each comparator is the difference of the two orders' ranks |
| OrdersPanel.InsertionSortedPermutes | src/components/OrdersPanel.jsx:51-69 | sorting is a permutation |
| OrdersPanel.InsertionSortedIsSorted | src/components/OrdersPanel.jsx:53-65 | the result is ordered by rank |
| OrdersPanel.SortKeepsTies | src/components/OrdersPanel.jsx:53-65 | a list whose orders all tie under the comparator comes back unchanged |
| OrdersPanel.InsertKeepsRankOrder | src/components/OrdersPanel.jsx:55-64 | inserting one order leaves the orders of any single rank in their old relative order, with the new one after them |
| OrdersPanel.SortIsStable | src/components/OrdersPanel.jsx:53-65 | the sort is stable: for any selection of orders of one rank, the sorted list lists them in the same order as the input |
| OrdersPanel.SameRankKeepsOrder | src/components/OrdersPanel.jsx:53-65 | for every option and every rank `k`, the orders ranked `k` appear in the sorted list exactly as in the input, in mixed lists too |
| OrdersPanel.SortedBy | src/components/OrdersPanel.jsx:51-70 | a permutation of the input; an unknown option leaves the order unchanged |
| OrdersPanel.SortOrderMeaning | src/components/OrdersPanel.jsx:54-65 | newest and highest come first under their options; oldest and lowest come first under theirs |
| OrdersPanel.InsertIntoPrefix | src/components/OrdersPanel.jsx:55-64 | one pass inserts an element into the sorted prefix of the array and leaves the rest alone |
| OrdersPanel.SortInPlace | src/components/OrdersPanel.jsx:55-64 | the array is sorted in place into InsertionSorted of its old contents |
| OrdersPanel.SortOrders | src/components/OrdersPanel.jsx:51-70 | returns a fresh array (a copy, never the input) holding SortedBy |
| OrdersPanel.ProcessOrders | src/components/OrdersPanel.jsx:85-89 | the result is a sub-multiset of the orders, each passing the status filter and the search |
| OrdersPanel.ProcessKeepsMatches | src/components/OrdersPanel.jsx:85-89 | every order passing the filter and the search is shown |
| OrderCard.OrderNumber | src/components/OrderCard.jsx:38 | the first min(8, length) characters of the id, a prefix of it |
| OrderCard.StatusButtons | src/components/OrderCard.jsx:90-105 | "confirmed" is offered exactly from pending, "completed" from every status but completed, and nothing else |
| OrderCard.PressStatusButton | src/components/OrderCard.jsx:90-105 | a press writes exactly the pressed status to the order, and only when that button is shown |
| OrderCard.PrepTimeWrite | src/components/OrderCard.jsx:73-77 | a prep-time edit is written exactly when the order is pending or confirmed |
| OrderCard.CompletedIsFinal | src/components/OrderCard.jsx:98 | a completed order has no outgoing transition |
| OrderCard.ButtonsLeadForward | src/components/OrderCard.jsx:90-105 | a button leads only to confirmed (from pending) or to completed |
| OrderCard.RefundedCanBeCompleted | src/components/OrderCard.jsx:7-105 | a refunded order is not editable yet can still be marked completed |
| OrderCard.Card.constructor | src/components/OrderCard.jsx:6 | the prep-time field starts at the order's prep time and nothing is written |
| OrderCard.Card.ChangePrepTime | src/components/OrderCard.jsx:73-77 | the field shows the new value; a write is issued only while the order is editable |
| OrderCard.Card.Press | src/components/OrderCard.jsx:90-105 | pressing a shown button issues exactly its status write |
| OrderCard.Card.Receive | src/components/OrderCard.jsx:9-11 | a new snapshot resets the field only when the stored prep time changed |
| JsMaps.DedupeKeys | src/components/AdminPanel.jsx:178-186 | the keys of the de-duplicated list are the input keys in order of first occurrence |
| JsMaps.DedupeKeepsLast | src/components/AdminPanel.jsx:178-186 | each kept element is the last input element with its key |
| JsMaps.DedupeSound | src/components/AdminPanel.jsx:178-186 | no two kept elements share a key, every input key is represented, and only input elements are kept |
| JsMaps.DedupeDistinctIdentity | src/components/AdminPanel.jsx:178-186 | a list with distinct keys comes back unchanged |
| Catalog.UniqueProducts | src/components/AdminPanel.jsx:178-180 | one product per trimmed, lower-cased name: the last one listed |
| Catalog.UniqueProductsSound | src/components/MenuSection.jsx:261-263 | no two listed products share a key, every key is listed, and every product listed is an input product |
| Catalog.UniquePromotions | src/components/AdminPanel.jsx:182-186 | one promotion per trimmed, lower-cased category and size: the last one listed |
| Catalog.UniquePromotionsSound | src/components/AdminPanel.jsx:182-186 | no two listed promotions share a key, every key is listed, and every promotion listed is an input promotion |
| Catalog.DistinctProductsUnchanged | src/components/AdminPanel.jsx:178-180 | products with distinct keys come back unchanged |
| Catalog.SpacingAndCaseMerge | src/components/AdminPanel.jsx:179 | " Taro " and "taro" collapse to the later product |
| Catalog.CategoryTabs | src/components/AdminPanel.jsx:192-196 | "All" first, followed by exactly the category values that are set |
| Catalog.CategoryTabsAppend | src/components/AdminPanel.jsx:192-195 | the tab values keep the categories' order: the tabs of two lists are the first list's tabs followed by the second's values |
| Catalog.NoCategoriesOnlyAll | src/components/MenuSection.jsx:241-244 | without categories the only tab is "All" |
| AdminPanel.ProductsInCategory | src/components/AdminPanel.jsx:235-237 | "All" lists everything; any other tab lists exactly the products of that category |
| AdminPanel.PromotionsInCategory | src/components/AdminPanel.jsx:239-241 | "All" lists everything; any other tab lists exactly the promotions of that category |
| AdminPanel.Load | src/components/AdminPanel.jsx:178-196 | the loaded lists are no longer than the input, and the tabs are CategoryTabs |
| AdminPanel.ProductFoundUnderItsTab | src/components/AdminPanel.jsx:192-237 | a loaded product whose category has a tab is listed under that tab and under "All" |
| AdminPanel.DuplicateNameShownOnce | src/components/AdminPanel.jsx:178-180 | a name listed twice shows once, as the later document |
| JsStrings.Lower | src/components/OrdersPanel.jsx:78 | `toLowerCase` keeps length and maps each letter A-Z to its lower case |
| JsStrings.LowerIdempotent | src/components/OrdersPanel.jsx:78-81 | lower-casing twice equals lower-casing once |
| JsStrings.Trim | src/components/AdminPanel.jsx:179 | `trim` returns a slice of the input with no white space at either end, and everything before and after that slice is white space |
| JsStrings.TrimIdempotent | src/components/AdminPanel.jsx:179 | trimming twice equals trimming once |
| JsStrings.IncludesIff | src/components/OrdersPanel.jsx:80-81 | `includes` holds exactly when the term occurs at some position |
| JsStrings.NatToStringRoundTrip | src/components/ui/CartModal.jsx:50 | the decimal form of the missing count reads back as that count |

## Left out

- Persistence: the cart's localStorage copy and its `JSON.parse` are not modelled, so a provider starts with an empty cart.
- Firestore I/O: the `onSnapshot` subscriptions and the `getDocs`, `setDoc`, `updateDoc` and `deleteDoc` calls are left out. Promotion lists, product lists and records are parameters, and the service functions return the write they would make.
- Generated ids: Firestore's auto-generated document id is a parameter (`freshId`), and so is the position of a generated document in the upload batch.
- Payment and navigation: Stripe, `fetch`, the backend URL, redirects and `navigate` are left out. The checkout stops at the request it would send.
- The batch import's JSON file read, `batch.commit()` and its console output are left out.
- The effect that copies the discount into `promotionDiscount` state (src/contexts/CartContext.jsx:222-227) is re-render scheduling and is left out. So are StrictMode and re-rendering in general.
- Floating point: prices are integers, so the `Number.isFinite` guards can never fire. `Number(price) || 0` and `parseInt(quantity, 10) || 1` act on integers, and non-numeric strings are not modelled.
- The `active || Active` and `category || Category` spellings are normalised into one field of `Promotion`. The `size` and `Size` spellings are kept apart (`size` and `capitalSize`): the lookup compares `size || Size` (src/contexts/CartContext.jsx:39), while the bundle price reads `size` alone (src/contexts/CartContext.jsx:135 and :189, src/components/ui/CartModal.jsx:63).
- OrderOnline.SanitizeLine: a name or size that is missing is the empty string, so non-string and `null` fields are not modelled.
- CartContext.CartStore.AddToCart: addToCart mutates the shared prior entry object in place (`updated[existingIndex].quantity +=`). The model replaces the entry in a new sequence, so aliasing between old and new state is not captured.
- JsStrings.Lower: `toLowerCase` is modelled on ASCII letters only. Other Unicode case mappings are not modelled.
- JsStrings.Trim: white space is tab, line feed, vertical tab, form feed, carriage return, space, no-break space, the line and paragraph separators and the byte-order mark. The other Unicode space separators that `trim` also strips are not modelled.
- Strings are sequences of characters, not UTF-16 code units.
- OrdersPanel.SortInPlace: the engine's `Array.prototype.sort` is modelled by an insertion sort. Both are stable (for the model, lemma SortIsStable), so for a comparator that is a rank difference they give the same order.
- OrdersPanel.Compare: a missing `createdAt` gives a NaN comparison in the source; the model takes the seconds as a present integer.
- CartItems.Promotion: a negative `requiredQuantity` is not representable (it is a nat), and a missing one is 0.
- Catalog.UniqueProducts: a product name that is not a string makes `trim` throw in the source; names are strings here.
- Catalog.UniquePromotions: a promotion without a `category` or a `size` makes `.trim()` throw in the source's load (src/components/AdminPanel.jsx:184). In the model a missing field is the empty string, so such a promotion is keyed with an empty part instead of aborting the load.
- OrderCard.Card.ChangePrepTime: the input is disabled while the order is not editable (src/components/OrderCard.jsx:79), but the model's method can still be called then; it updates the field and, as its contract states, issues no write. A value that `parseInt` turns into NaN (an empty or non-numeric input) is not modelled; the method takes an integer.
- Catalog.CategoryTabs: `null` category entries and non-string category values are not modelled; an unset value is the empty string.
- FirebaseService.AddCategory, FirebaseService.SaveProduct, FirebaseService.SavePromotion: document ids are only required to be non-empty. An `id` containing '/' is accepted by the model, although Firestore's `doc()` would refuse it. Firestore's other id restrictions are not modelled either.
- FirebaseService.SaveDispatch: a truthy `id` that is not a string makes Firestore's `doc()` throw its own invalid-argument error. The model returns the placeholder text "TypeError: document id is not a string" instead; only the fact that the save fails is modelled, not Firestore's wording.
- FirebaseService.UpdateCategory: an empty id is refused with the empty-path message, whereas Firestore reports the path "categories" as having an odd number of segments; an id containing '/' is accepted, though Firestore refuses it. Only whether the update succeeds is modelled, not Firestore's wording or its path rules.
- CartModal.Encouragement: a missing promotion description is the empty string, so the hint ends "to get !"; the source's template literal prints "to get undefined!".
- The order of keys in a JavaScript object is not modelled. Records are maps.
- handleResetSelections (src/components/MenuSection.jsx:306-313) is not modelled. It is a removeFromCart by id followed by deleting one key from the view's summary.
- The forms, modals, authentication, GDPR banners and presentation components of the storefront are not part of this model.

## Findings

| source | as written | input that shows it | evidently intended | confidence | as-written member | corrected member |
|---|---|---|---|---|---|---|
| src/services/firebaseService.js:197 and :224 | `promotionData.type && !config.promotionTypes[promotionData.type]` looks the type up as a property of a plain object, so names inherited from `Object.prototype` are truthy | `{ active: true, category: "tea", price: 500, type: "toString" }` is saved (lemma InheritedTypeSaved) | only `fixedPrice` and `buyOneGetOne` are accepted as types | not executed | FirebaseService.SavePromotion | FirebaseService.SavePromotionCorrected |
