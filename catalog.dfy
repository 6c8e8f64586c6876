/** The catalogue lists the menu page and the admin dashboard build from Firestore: products
    and promotions de-duplicated by a normalised name, and the category tabs. The same code
    appears in src/components/AdminPanel.jsx and src/components/MenuSection.jsx. */
module Catalog {
  import opened Wrappers
  import opened Seqs
  import opened JsStrings
  import opened JsMaps
  import opened CartItems
  import opened MenuSection

  /** Products are told apart by their trimmed, lower-cased name. */
  function ProductKey(p: MenuProduct): string
  {
    Lower(Trim(p.name))
  }

  /** Promotions are told apart by trimmed, lower-cased category and size. */
  function PromotionKey(p: Promotion): string
  {
    Lower(Trim(p.category)) + "-" + Lower(Trim(p.size))
  }

  /** One product per key: the last one listed, in the place of the first. */
  function UniqueProducts(products: seq<MenuProduct>): (r: seq<MenuProduct>)
    ensures |r| <= |products|
    ensures forall j :: 0 <= j < |r| ==> LastWithKey(products, ProductKey, ProductKey(r[j])) == Some(r[j])
  {
    DedupeKeepsLast(products, ProductKey);
    DedupeKeys(products, ProductKey);
    var r := DedupeByKey(products, ProductKey);
    FirstOccurrencesLength(Keys(products, ProductKey));
    r
  }

  /** One promotion per category and size: the last one listed. */
  function UniquePromotions(promotions: seq<Promotion>): (r: seq<Promotion>)
    ensures |r| <= |promotions|
    ensures forall j :: 0 <= j < |r| ==> LastWithKey(promotions, PromotionKey, PromotionKey(r[j])) == Some(r[j])
  {
    DedupeKeepsLast(promotions, PromotionKey);
    DedupeKeys(promotions, PromotionKey);
    var r := DedupeByKey(promotions, PromotionKey);
    FirstOccurrencesLength(Keys(promotions, PromotionKey));
    r
  }

  lemma {:induction false} FirstOccurrencesLength(s: seq<string>)
    ensures |FirstOccurrences(s)| <= |s|
  {
    if |s| > 0 {
      FirstOccurrencesLength(s[..|s| - 1]);
    }
  }

  /** No two listed products share a key, every product's key is listed, and every listed
      product is one of the input products. */
  lemma UniqueProductsSound(products: seq<MenuProduct>)
    ensures var r := UniqueProducts(products);
      && (forall a, b :: 0 <= a < b < |r| ==> ProductKey(r[a]) != ProductKey(r[b]))
      && (forall p :: p in products ==> exists j :: 0 <= j < |r| && ProductKey(r[j]) == ProductKey(p))
      && (forall q :: q in r ==> q in products)
  {
    DedupeSound(products, ProductKey);
  }


  /** The same for promotions and their category-size keys. */
  lemma UniquePromotionsSound(promotions: seq<Promotion>)
    ensures var r := UniquePromotions(promotions);
      && (forall a, b :: 0 <= a < b < |r| ==> PromotionKey(r[a]) != PromotionKey(r[b]))
      && (forall p :: p in promotions ==> exists j :: 0 <= j < |r| && PromotionKey(r[j]) == PromotionKey(p))
      && (forall q :: q in r ==> q in promotions)
  {
    DedupeSound(promotions, PromotionKey);
  }


  /** A list whose names are already distinct keys comes back unchanged. */
  lemma DistinctProductsUnchanged(products: seq<MenuProduct>)
    requires forall a, b :: 0 <= a < b < |products| ==> ProductKey(products[a]) != ProductKey(products[b])
    ensures UniqueProducts(products) == products
  {
    var ks := Keys(products, ProductKey);
    assert NoDuplicates(ks) by {
      forall a, b | 0 <= a < b < |ks| ensures ks[a] != ks[b] {
        assert ks[a] == ProductKey(products[a]);
      }
    }
    DedupeDistinctIdentity(products, ProductKey);
  }

  lemma TrimStartTaro()
    ensures TrimStart(" Taro ") == "Taro "
  {
    assert IsSpace(' ');
    assert " Taro "[1..] == "Taro ";
    assert !IsSpace('T');
  }

  lemma TrimEndTaro()
    ensures TrimEnd("Taro ") == "Taro"
  {
    assert IsSpace(' ');
    assert "Taro "[..4] == "Taro";
    assert !IsSpace('o');
  }

  lemma TrimTaro()
    ensures Trim(" Taro ") == "Taro" && Trim("taro") == "taro"
  {
    TrimStartTaro();
    TrimEndTaro();
    assert !IsSpace('t') && !IsSpace('o');
  }

  lemma LowerTaro()
    ensures Lower("Taro") == Lower("taro") == "taro"
  {
  }

  /** Names that differ only in spacing and case have one key. */
  lemma TaroKeys()
    ensures Lower(Trim(" Taro ")) == Lower(Trim("taro")) == "taro"
  {
    TrimTaro();
    LowerTaro();
  }

  /** Two entries for " Taro " and "taro" collapse to the later one. */
  lemma SpacingAndCaseMerge(first: MenuProduct, second: MenuProduct)
    requires first.name == " Taro " && second.name == "taro"
    ensures UniqueProducts([first, second]) == [second]
  {
    TaroKeys();
    SameKeyPair(first, second, ProductKey);
  }

  /** A category document as the tabs read it: an empty value stands for a missing one. */
  datatype CategoryDoc = CategoryDoc(id: string, value: string, displayName: string)

  predicate HasValue(c: CategoryDoc) { c.value != "" }

  function Value(c: CategoryDoc): string { c.value }

  /** The tab list: "All" followed by every category value that is set, in order. */
  function CategoryTabs(categories: seq<CategoryDoc>): (r: seq<string>)
    ensures |r| >= 1 && r[0] == "All"
    ensures forall v :: v in r[1..] <==> exists c :: c in categories && c.value == v && v != ""
  {
    var values := MapSeq(Filter(categories, HasValue), Value);
    assert forall v :: v in values <==> exists c :: c in Filter(categories, HasValue) && c.value == v;
    ["All"] + values
  }

  /** The tabs keep the categories' order: the tabs of two lists of categories are the first
      list's tabs followed by the second's values. */
  lemma CategoryTabsAppend(a: seq<CategoryDoc>, b: seq<CategoryDoc>)
    ensures CategoryTabs(a + b) == CategoryTabs(a) + CategoryTabs(b)[1..]
  {
    FilterAppend(a, b, HasValue);
    MapSeqAppend(Filter(a, HasValue), Filter(b, HasValue), Value);
  }

  /** With no categories the only tab is "All". */
  lemma NoCategoriesOnlyAll()
    ensures CategoryTabs([]) == ["All"]
  {
  }
}
