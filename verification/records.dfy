/**
 * The entities the pages keep in browser-local storage, and the record store
 * that holds them: one field per persisted collection plus the three
 * "current session" snapshots. A JSON field a record does not carry is the
 * empty string (or `false`, or `None` for the two optional lists of a store).
 */
module Records {
  import opened Wrappers
  import opened Seqs

  /** Capacity of the `pantry_stores` collection. */
  const MaxStores := 30
  /** Capacity of the `pantry_sellers` collection. */
  const MaxSellers := 30
  /** Largest stock a new product may be listed with. */
  const MaxStock := 30

  /**
   * A product record. Store-scoped products (inside a store's `products`)
   * use `storeId` and `stock`; marketplace products (`sellus_products`) use
   * `sellerId`, `sellerName` and `available`. Prices are integers.
   */
  datatype Product = Product(
    id: string,
    storeId: string,
    sellerId: string,
    sellerName: string,
    name: string,
    description: string,
    price: int,
    category: string,
    stock: int,
    available: bool,
    createdAt: string)

  /** A completed sale, as the dashboard reads it; only `total` is aggregated. */
  datatype Transaction = Transaction(
    id: string,
    buyerName: string,
    total: int,
    paymentMethod: string,
    timestamp: string)

  /** An entry of `pantry_stores`, also the `pantry_current_store` snapshot. */
  datatype Store = Store(
    id: string,
    storeName: string,
    ownerName: string,
    email: string,
    password: string,
    phone: string,
    gcashNumber: string,
    gcashName: string,
    description: string,
    createdAt: string,
    qrCode: string,
    products: Option<seq<Product>>,
    transactions: Option<seq<Transaction>>)

  /** An entry of `pantry_sellers`, also the `pantry_current_seller` snapshot. */
  datatype Seller = Seller(
    id: string,
    name: string,
    email: string,
    password: string,
    businessName: string,
    phone: string,
    gcashNumber: string,
    description: string,
    createdAt: string,
    isActive: bool,
    totalSales: int,
    rating: int)

  /** An entry of `sellus_users`, also the `sellus_current_user` snapshot. */
  datatype User = User(
    id: string,
    name: string,
    email: string,
    password: string,
    phone: string,
    address: string,
    bio: string,
    createdAt: string)

  /**
   * Everything the handlers read and write. A collection that was never
   * written reads as the empty sequence (`JSON.parse(... || "[]")`).
   */
  datatype RecordStore = RecordStore(
    stores: seq<Store>,
    currentStore: Option<Store>,
    sellers: seq<Seller>,
    currentSeller: Option<Seller>,
    users: seq<User>,
    currentUser: Option<User>,
    products: seq<Product>)

  /** What a handler reports instead of writing. */
  datatype Error =
    | CapacityExceeded
    | DuplicateEmail
    | InvalidCredentials
    | MissingFields
    | StockAboveLimit
    | StockNotANumber
    | NoSession

  /** `store.products || []`. */
  function ProductsOf(s: Store): seq<Product> {
    s.products.GetOr([])
  }

  /** `store.transactions || []`. */
  function TransactionsOf(s: Store): seq<Transaction> {
    s.transactions.GetOr([])
  }

  /**
   * The master list after a session snapshot was written back: the first
   * entry with the snapshot's id is the snapshot, every other entry is as it
   * was, and a list without that id is untouched.
   */
  ghost predicate WrittenBack(before: seq<Store>, after: seq<Store>, snapshot: Store) {
    && |after| == |before|
    && (forall k :: 0 <= k < |before| ==>
          after[k] == (if IsFirstMatch(before, (s: Store) => s.id == snapshot.id, k) then snapshot else before[k]))
    && ((forall k :: 0 <= k < |before| ==> before[k].id != snapshot.id) ==> after == before)
  }

  /**
   * Writes a changed session store back into the master list: the
   * `findIndex` by id and guarded assignment every catalog handler performs.
   */
  function WriteBack(stores: seq<Store>, snapshot: Store): (r: seq<Store>)
    ensures WrittenBack(stores, r, snapshot)
  {
    ReplaceFirst(stores, (s: Store) => s.id == snapshot.id, snapshot)
  }
}
