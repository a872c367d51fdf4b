/**
 * Catalog mutations of the store dashboard: listing a new product and
 * deleting one. Each handler changes the current-store snapshot and then
 * writes it back over the master entry with the same id, skipping the master
 * write when no entry has that id.
 */
module Catalog {
  import opened Wrappers
  import opened Seqs
  import opened Text
  import opened Records
  import opened Dashboard

  /** The categories the add-product form offers. */
  const FoodCategories: seq<string> := ["Sweet", "Viand", "Others"]

  /** The add-product form, every field as typed. */
  datatype ProductForm = ProductForm(
    name: string,
    description: string,
    price: string,
    category: string,
    stock: string)

  /** Every required field is non-empty. */
  predicate Complete(f: ProductForm) {
    f.name != "" && f.description != "" && f.price != "" && f.category != "" && f.stock != ""
  }

  /**
   * The add-product handler. `price` is the number the price field reads as;
   * `id` and `createdAt` are the generated id and timestamp.
   */
  function AddProduct(db: RecordStore, form: ProductForm, price: int, id: string, createdAt: string)
    : (r: Result<RecordStore, Error>)
    ensures db.currentStore.None? ==> r == Failure(NoSession)
    ensures db.currentStore.Some? && !Complete(form) ==> r == Failure(MissingFields)
    ensures db.currentStore.Some? && Complete(form) && ParseInt(form.stock).None? ==> r == Failure(StockNotANumber)
    ensures db.currentStore.Some? && Complete(form) && ParseInt(form.stock).Some? && ParseInt(form.stock).value > MaxStock
      ==> r == Failure(StockAboveLimit)
    ensures r.Success? <==>
      && db.currentStore.Some? && Complete(form)
      && ParseInt(form.stock).Some? && ParseInt(form.stock).value <= MaxStock
    ensures r.Success? ==> r.value.currentStore.Some?
    ensures r.Success? ==>
      var before := db.currentStore.value;
      var updated := r.value.currentStore.value;
      && |ProductsOf(updated)| == |ProductsOf(before)| + 1
      && ProductsOf(updated)[..|ProductsOf(before)|] == ProductsOf(before)
      && updated == before.(products := updated.products)
      && r.value.stores == WriteBack(db.stores, updated)
      && r.value == db.(currentStore := r.value.currentStore, stores := r.value.stores)
    ensures r.Success? ==>
      var added := ProductsOf(r.value.currentStore.value)[|ProductsOf(db.currentStore.value)|];
      added == Product(id, db.currentStore.value.id, "", "", form.name, form.description, price,
                          form.category, ParseInt(form.stock).value, false, createdAt)
  {
    match db.currentStore
    case None => Failure(NoSession)
    case Some(store) =>
      if !Complete(form) then Failure(MissingFields)
      else
        match ParseInt(form.stock)
        case None => Failure(StockNotANumber)
        case Some(stock) =>
          if stock > MaxStock then Failure(StockAboveLimit)
          else
            var p := Product(id, store.id, "", "", form.name, form.description, price,
                             form.category, stock, false, createdAt);
            var updated := store.(products := Some(ProductsOf(store) + [p]));
            Success(db.(currentStore := Some(updated), stores := WriteBack(db.stores, updated)))
  }

  /** Every product of the store is within the stock ceiling. */
  predicate StockWithinCeiling(s: Store) {
    forall i :: 0 <= i < |ProductsOf(s)| ==> ProductsOf(s)[i].stock <= MaxStock
  }

  /**
   * Listing a product keeps every stock within the ceiling, and the
   * dashboard's stock total grows by exactly the new product's stock.
   */
  lemma AddProductStock(db: RecordStore, form: ProductForm, price: int, id: string, createdAt: string)
    requires db.currentStore.Some? && StockWithinCeiling(db.currentStore.value)
    requires Complete(form) && ParseInt(form.stock).Some? && ParseInt(form.stock).value <= MaxStock
    ensures var s := AddProduct(db, form, price, id, createdAt).value.currentStore.value;
      && StockWithinCeiling(s)
      && TotalStock(ProductsOf(s)) == TotalStock(ProductsOf(db.currentStore.value)) + ParseInt(form.stock).value
  {
    var before := ProductsOf(db.currentStore.value);
    var added := Product(id, db.currentStore.value.id, "", "", form.name, form.description, price,
                         form.category, ParseInt(form.stock).value, false, createdAt);
    assert ProductsOf(AddProduct(db, form, price, id, createdAt).value.currentStore.value) == before + [added];
    StockAppendOne(before, added);
  }

  /** Appending a product within the ceiling keeps the ceiling and adds its stock to the total. */
  lemma StockAppendOne(before: seq<Product>, added: Product)
    requires forall i :: 0 <= i < |before| ==> before[i].stock <= MaxStock
    requires added.stock <= MaxStock
    ensures forall i :: 0 <= i < |before + [added]| ==> (before + [added])[i].stock <= MaxStock
    ensures TotalStock(before + [added]) == TotalStock(before) + added.stock
  {
    TotalsAppend(before, [added], [], []);
  }

  /** `p.id !== productId`. */
  predicate Keeps(productId: string, p: Product) {
    p.id != productId
  }

  /** The delete button's handler. */
  function DeleteProduct(db: RecordStore, productId: string): (r: Result<RecordStore, Error>)
    ensures r.Failure? <==> db.currentStore.None?
    ensures r.Failure? ==> r.error == NoSession
    ensures r.Success? ==> r.value.currentStore.Some?
    ensures r.Success? ==>
      var before := db.currentStore.value;
      var updated := r.value.currentStore.value;
      && updated == before.(products := updated.products)
      && (forall p :: p in ProductsOf(updated) <==> p in ProductsOf(before) && p.id != productId)
      && (forall p :: multiset(ProductsOf(updated))[p] ==
            if p.id != productId then multiset(ProductsOf(before))[p] else 0)
      && IsSubsequence(ProductsOf(updated), ProductsOf(before))
      && r.value.stores == WriteBack(db.stores, updated)
      && r.value == db.(currentStore := r.value.currentStore, stores := r.value.stores)
  {
    match db.currentStore
    case None => Failure(NoSession)
    case Some(store) =>
      var keep := (p: Product) => Keeps(productId, p);
      var kept := Filter(ProductsOf(store), keep);
      FilterMultiset(ProductsOf(store), keep);
      var updated := store.(products := Some(kept));
      Success(db.(currentStore := Some(updated), stores := WriteBack(db.stores, updated)))
  }

  /** Deleting an id no product has leaves the product list as it was. */
  lemma DeleteAbsentKeepsProducts(db: RecordStore, productId: string)
    requires db.currentStore.Some?
    requires forall i :: 0 <= i < |ProductsOf(db.currentStore.value)| ==> ProductsOf(db.currentStore.value)[i].id != productId
    ensures ProductsOf(DeleteProduct(db, productId).value.currentStore.value) == ProductsOf(db.currentStore.value)
  {
  }

  /** Deleting the same product twice is deleting it once. */
  lemma DeleteIdempotent(db: RecordStore, productId: string)
    requires db.currentStore.Some?
    ensures var once := DeleteProduct(db, productId).value;
      DeleteProduct(once, productId) == Success(once)
  {
    var store := db.currentStore.value;
    var kept := Filter(ProductsOf(store), p => Keeps(productId, p));
    var updated := store.(products := Some(kept));
    assert Filter(kept, p => Keeps(productId, p)) == kept;
    ReplaceFirstTwice(db.stores, (s: Store) => s.id == updated.id, updated, updated);
  }

  /** Deleting a product lowers the stock total by the stock of what was removed. */
  lemma DeleteProductStock(db: RecordStore, productId: string)
    requires db.currentStore.Some?
    ensures var before := ProductsOf(db.currentStore.value);
      TotalStock(ProductsOf(DeleteProduct(db, productId).value.currentStore.value))
        == TotalStock(before) - TotalStock(Filter(before, (p: Product) => p.id == productId))
  {
    var before := ProductsOf(db.currentStore.value);
    SumFilterSplit(before, StockOf, (p: Product) => p.id == productId, p => Keeps(productId, p));
  }
}
