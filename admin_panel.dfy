/** The admin dashboard's product and promotion lists (src/components/AdminPanel.jsx):
    de-duplicated on load, then filtered by the selected category tab. */
module AdminPanel {
  import opened Seqs
  import opened CartItems
  import opened MenuSection
  import opened Catalog

  /** The products listed under the selected tab. */
  function ProductsInCategory(products: seq<MenuProduct>, selected: string): (r: seq<MenuProduct>)
    ensures selected == "All" ==> r == products
    ensures selected != "All" ==> forall p :: p in r <==> p in products && p.category == selected
  {
    if selected == "All" then products else Filter(products, (p: MenuProduct) => p.category == selected)
  }

  /** The promotions listed under the selected tab. */
  function PromotionsInCategory(promotions: seq<Promotion>, selected: string): (r: seq<Promotion>)
    ensures selected == "All" ==> r == promotions
    ensures selected != "All" ==> forall p :: p in r <==> p in promotions && p.category == selected
  {
    if selected == "All" then promotions else Filter(promotions, (p: Promotion) => p.category == selected)
  }

  /** The dashboard after a load: unique products and promotions and the tab list. */
  datatype Dashboard = Dashboard(products: seq<MenuProduct>, promotions: seq<Promotion>, tabs: seq<string>)

  function Load(products: seq<MenuProduct>, promotions: seq<Promotion>, categories: seq<CategoryDoc>): (r: Dashboard)
    ensures |r.products| <= |products| && |r.promotions| <= |promotions|
    ensures r.tabs == CategoryTabs(categories)
  {
    Dashboard(UniqueProducts(products), UniquePromotions(promotions), CategoryTabs(categories))
  }

  /** Every loaded product whose category has a tab is listed under that tab, and under
      "All"; what a tab lists is exactly the loaded products of that category. */
  lemma ProductFoundUnderItsTab(products: seq<MenuProduct>, promotions: seq<Promotion>,
                                categories: seq<CategoryDoc>, c: CategoryDoc, p: MenuProduct)
    requires c in categories && c.value != "" && c.value != "All"
    requires p in Load(products, promotions, categories).products && p.category == c.value
    ensures c.value in Load(products, promotions, categories).tabs
    ensures p in ProductsInCategory(Load(products, promotions, categories).products, c.value)
    ensures p in ProductsInCategory(Load(products, promotions, categories).products, "All")
  {
    var tabs := CategoryTabs(categories);
    assert c.value in tabs[1..];
  }

  /** A name listed twice in the product collection shows once on the dashboard: the later
      document wins. */
  lemma DuplicateNameShownOnce(first: MenuProduct, second: MenuProduct, categories: seq<CategoryDoc>)
    requires first.name == " Taro " && second.name == "taro" && first.category == second.category
    ensures ProductsInCategory(Load([first, second], [], categories).products, second.category) == [second]
  {
    SpacingAndCaseMerge(first, second);
    if second.category != "All" {
      assert [second][..0] == [];
    }
  }
}
