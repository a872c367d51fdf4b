/**
 * The browsing pages: the marketplace (available products, search over
 * name/description/seller, category select with an "All Categories"
 * sentinel), the pantry (products in stock, search over name/seller,
 * category select with an "all" sentinel, category badge colours) and the
 * store directory (a fixed demo store in front of the registered stores,
 * search over name/owner/description, product and stock counts).
 */
module Listings {
  import opened Wrappers
  import opened Seqs
  import opened Text
  import opened Records
  import opened Dashboard
  import Catalog

  /** `field.toLowerCase().includes(term.toLowerCase())`. */
  predicate Mentions(field: string, term: string) {
    Contains(Lower(field), Lower(term))
  }

  /** Every field mentions the empty search term. */
  lemma MentionsEmpty(field: string)
    ensures Mentions(field, "")
  {
    ContainsTrivial(Lower(field));
  }

  /** Each field mentions itself, whatever its case. */
  lemma MentionsItself(field: string)
    ensures Mentions(field, field)
  {
    ContainsTrivial(Lower(field));
  }

  // ---------------------------------------------------------------------------
  // Marketplace
  // ---------------------------------------------------------------------------

  const AllCategories := "All Categories"

  /** The products the marketplace loads: those marked available, in order. */
  function MarketplaceBase(all: seq<Product>): (r: seq<Product>)
    ensures forall p :: p in r <==> p in all && p.available
    ensures forall p :: multiset(r)[p] == if p.available then multiset(all)[p] else 0
    ensures IsSubsequence(r, all)
  {
    var available := (p: Product) => p.available;
    FilterMultiset(all, available);
    Filter(all, available)
  }

  predicate MarketplaceHit(p: Product, term: string) {
    Mentions(p.name, term) || Mentions(p.description, term) || Mentions(p.sellerName, term)
  }

  /** Whether the marketplace's search term and category select let `p` through. */
  predicate MarketplaceShows(p: Product, term: string, category: string) {
    (term == "" || MarketplaceHit(p, term)) && (category == AllCategories || p.category == category)
  }

  /** The marketplace's search-and-category effect. */
  function MarketplaceView(base: seq<Product>, term: string, category: string): (r: seq<Product>)
    ensures forall p :: p in r <==>
      && p in base
      && (term == "" || MarketplaceHit(p, term))
      && (category == AllCategories || p.category == category)
    ensures forall p :: multiset(r)[p] == if MarketplaceShows(p, term, category) then multiset(base)[p] else 0
    ensures IsSubsequence(r, base)
    ensures term == "" && category == AllCategories ==> r == base
  {
    var searched := FilterIf(term != "", base, (p: Product) => MarketplaceHit(p, term));
    var r := FilterIf(category != AllCategories, searched, (p: Product) => p.category == category);
    SubsequenceTransitive(r, searched, base);
    r
  }

  // ---------------------------------------------------------------------------
  // Pantry
  // ---------------------------------------------------------------------------

  const AnyCategory := "all"

  /** The products the pantry loads: those with stock left, in order. */
  function PantryBase(all: seq<Product>): (r: seq<Product>)
    ensures forall p :: p in r <==> p in all && p.stock > 0
    ensures forall p :: multiset(r)[p] == if p.stock > 0 then multiset(all)[p] else 0
    ensures IsSubsequence(r, all)
  {
    var inStock := (p: Product) => p.stock > 0;
    FilterMultiset(all, inStock);
    Filter(all, inStock)
  }

  /** The pantry searches names and seller names, not descriptions. */
  predicate PantryHit(p: Product, term: string) {
    Mentions(p.name, term) || Mentions(p.sellerName, term)
  }

  /** Whether the pantry's search term and category select let `p` through. */
  predicate PantryShows(p: Product, term: string, category: string) {
    (term == "" || PantryHit(p, term)) && (category == AnyCategory || p.category == category)
  }

  /** The pantry's search-and-category effect. */
  function PantryView(base: seq<Product>, term: string, category: string): (r: seq<Product>)
    ensures forall p :: p in r <==>
      && p in base
      && (term == "" || PantryHit(p, term))
      && (category == AnyCategory || p.category == category)
    ensures forall p :: multiset(r)[p] == if PantryShows(p, term, category) then multiset(base)[p] else 0
    ensures IsSubsequence(r, base)
    ensures term == "" && category == AnyCategory ==> r == base
  {
    var searched := FilterIf(term != "", base, (p: Product) => PantryHit(p, term));
    var r := FilterIf(category != AnyCategory, searched, (p: Product) => p.category == category);
    SubsequenceTransitive(r, searched, base);
    r
  }

  /** A pantry listing shows only products whose dashboard badge is not red. */
  lemma PantryListsNoRedBadge(all: seq<Product>, term: string, category: string)
    ensures forall p :: p in PantryView(PantryBase(all), term, category) ==> StockBadge(p.stock) != Red
  {
  }

  const PinkClass := "bg-pink-100 text-pink-800 border-pink-200"
  const BlueClass := "bg-blue-100 text-blue-800 border-blue-200"
  const YellowClass := "bg-yellow-100 text-yellow-800 border-yellow-200"
  const GrayClass := "bg-gray-100 text-gray-800 border-gray-200"

  /** `getCategoryColor` as written: it matches lower-case category names. */
  function CategoryColor(category: string): (c: string)
    ensures category == "sweet" ==> c == PinkClass
    ensures category == "viand" ==> c == BlueClass
    ensures category == "others" ==> c == YellowClass
    ensures c != GrayClass <==> category in {"sweet", "viand", "others"}
  {
    if category == "sweet" then PinkClass
    else if category == "viand" then BlueClass
    else if category == "others" then YellowClass
    else GrayClass
  }

  /**
   * Every category a product can be given ("Sweet", "Viand", "Others") is
   * capitalised, so the colour function as written paints them all gray.
   */
  lemma CatalogCategoriesAllGray()
    ensures forall i :: 0 <= i < |Catalog.FoodCategories| ==> CategoryColor(Catalog.FoodCategories[i]) == GrayClass
  {
  }

  /** The category badge colour, matching category names case-insensitively. */
  function CategoryBadgeColor(category: string): (c: string)
    ensures c != GrayClass <==> Lower(category) in {"sweet", "viand", "others"}
  {
    CategoryColor(Lower(category))
  }

  /**
   * The case-insensitive colouring gives each catalog category its own
   * colour, and agrees with the function as written on lower-case names.
   */
  lemma CategoryBadgeColorDistinguishes(category: string)
    ensures forall i :: 0 <= i < |Catalog.FoodCategories| ==> CategoryBadgeColor(Catalog.FoodCategories[i]) != GrayClass
    ensures forall i, j :: 0 <= i < j < |Catalog.FoodCategories| ==>
      CategoryBadgeColor(Catalog.FoodCategories[i]) != CategoryBadgeColor(Catalog.FoodCategories[j])
    ensures Lower(category) == category ==> CategoryBadgeColor(category) == CategoryColor(category)
  {
    assert Lower("Sweet") == "sweet";
    assert Lower("Viand") == "viand";
    assert Lower("Others") == "others";
  }

  // ---------------------------------------------------------------------------
  // Store directory
  // ---------------------------------------------------------------------------

  const DemoStoreId := "demo-store"

  /** A product of the demo fixture: only its category and stock are given. */
  function DemoProduct(category: string, stock: int): Product {
    Product("", "", "", "", "", "", 0, category, stock, false, "")
  }

  /** The fixed demo store, created at `now`; it has no transaction list. */
  function DemoStore(now: string): Store {
    Store(DemoStoreId, "Sarah's Sweet Treats", "Sarah Johnson", "", "", "", "", "",
          "Homemade sweets and treats made with love", now, "",
          Some([DemoProduct("Sweet", 25), DemoProduct("Viand", 15), DemoProduct("Others", 10)]),
          None)
  }

  /** The directory: the demo store first, then the registered stores in order. */
  function WithDemo(stores: seq<Store>, now: string): (r: seq<Store>)
    ensures |r| == |stores| + 1
    ensures r[0] == DemoStore(now)
    ensures r[1..] == stores
  {
    [DemoStore(now)] + stores
  }

  /** The "Demo" badge. */
  predicate IsDemo(s: Store) {
    s.id == DemoStoreId
  }

  /**
   * Unless a registered store happens to use the demo id, the directory shows
   * the badge on its first entry and on no other.
   */
  lemma DemoBadgeOnlyFirst(stores: seq<Store>, now: string)
    requires forall i :: 0 <= i < |stores| ==> stores[i].id != DemoStoreId
    ensures forall i :: 0 <= i < |WithDemo(stores, now)| ==> (IsDemo(WithDemo(stores, now)[i]) <==> i == 0)
  {
    var r := WithDemo(stores, now);
    forall i | 1 <= i < |r| ensures !IsDemo(r[i]) {
      assert r[i] == stores[i - 1];
    }
  }

  predicate StoreHit(s: Store, term: string) {
    Mentions(s.storeName, term) || Mentions(s.ownerName, term) || Mentions(s.description, term)
  }

  /** The directory's search effect (it runs for the empty term too). */
  function StoreSearch(stores: seq<Store>, term: string): (r: seq<Store>)
    ensures forall s :: s in r <==> s in stores && StoreHit(s, term)
    ensures forall s :: multiset(r)[s] == if StoreHit(s, term) then multiset(stores)[s] else 0
    ensures IsSubsequence(r, stores)
    ensures term == "" ==> r == stores
  {
    assert term == "" ==> forall i :: 0 <= i < |stores| ==> StoreHit(stores[i], term) by {
      if term == "" {
        forall i | 0 <= i < |stores| ensures StoreHit(stores[i], term) {
          MentionsEmpty(stores[i].storeName);
        }
      }
    }
    var hit := (s: Store) => StoreHit(s, term);
    FilterMultiset(stores, hit);
    Filter(stores, hit)
  }

  /** `getTotalProducts`: `store.products?.length || 0`. */
  function TotalProducts(s: Store): (n: nat)
    ensures s.products.None? ==> n == 0
    ensures s.products.Some? ==> n == |s.products.value|
  {
    |ProductsOf(s)|
  }

  /** `getTotalStock`: the stock total, or 0 when the store lists no products. */
  function StoreStock(s: Store): (n: int)
    ensures s.products.None? ==> n == 0
    ensures s.products.Some? ==> n == TotalStock(s.products.value)
  {
    TotalStock(ProductsOf(s))
  }

  /** The demo store lists three products holding 50 units between them. */
  lemma DemoTotals(now: string)
    ensures TotalProducts(DemoStore(now)) == 3
    ensures StoreStock(DemoStore(now)) == 50
  {
    var ps := ProductsOf(DemoStore(now));
    assert ps[..1][..0] == [];
    assert Sum(ps[..1], StockOf) == 25;
    assert ps[..2][..1] == ps[..1];
    assert Sum(ps[..2], StockOf) == 40;
    assert ps[..3][..2] == ps[..2];
    assert ps[..3] == ps;
  }
}
