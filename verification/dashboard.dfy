/**
 * The read-only figures of the store dashboard: the stock and revenue
 * totals, the stock badge of each product card, and the store's browse URL
 * that the QR code encodes.
 */
module Dashboard {
  import opened Seqs
  import opened Records

  function StockOf(p: Product): int {
    p.stock
  }

  function TotalOf(t: Transaction): int {
    t.total
  }

  /**
   * The "Total Stock" card: `products.reduce((sum, p) => sum + p.stock, 0)`.
   * No products give 0, and otherwise the first product's stock plus the
   * total of the rest.
   */
  function TotalStock(ps: seq<Product>): (r: int)
    ensures |ps| == 0 ==> r == 0
    ensures |ps| > 0 ==> r == ps[0].stock + TotalStock(ps[1..])
  {
    SumFront(ps, StockOf);
    Sum(ps, StockOf)
  }

  /**
   * The "Revenue" card: `transactions.reduce((sum, t) => sum + t.total, 0)`.
   * No sales give 0, and otherwise the first sale's total plus the revenue of
   * the rest.
   */
  function Revenue(ts: seq<Transaction>): (r: int)
    ensures |ts| == 0 ==> r == 0
    ensures |ts| > 0 ==> r == ts[0].total + Revenue(ts[1..])
  {
    SumFront(ts, TotalOf);
    Sum(ts, TotalOf)
  }

  /** Totals over two lists add up. */
  lemma TotalsAppend(a: seq<Product>, b: seq<Product>, u: seq<Transaction>, v: seq<Transaction>)
    ensures TotalStock(a + b) == TotalStock(a) + TotalStock(b)
    ensures Revenue(u + v) == Revenue(u) + Revenue(v)
  {
    SumAppend(a, b, StockOf);
    SumAppend(u, v, TotalOf);
  }

  /** With every stock between 0 and the ceiling, the total is at most 30 per product. */
  lemma TotalStockBounds(ps: seq<Product>)
    requires forall i :: 0 <= i < |ps| ==> 0 <= ps[i].stock <= MaxStock
    ensures 0 <= TotalStock(ps) <= MaxStock * |ps|
  {
    SumBounds(ps, StockOf, 0, MaxStock);
  }

  /** A sale never lowers the revenue figure when its total is not negative. */
  lemma RevenueGrowsWithSales(ts: seq<Transaction>, t: Transaction)
    requires t.total >= 0
    ensures Revenue(ts + [t]) == Revenue(ts) + t.total
    ensures Revenue(ts + [t]) >= Revenue(ts)
  {
    SumAppend(ts, [t], TotalOf);
  }

  datatype Badge = Green | Yellow | Red

  /** The colour of a product card's "n left" badge. */
  function StockBadge(stock: int): (b: Badge)
    ensures b == Green <==> stock > 5
    ensures b == Yellow <==> 0 < stock <= 5
    ensures b == Red <==> stock <= 0
  {
    if stock > 5 then Green else if stock > 0 then Yellow else Red
  }

  function BadgeRank(b: Badge): nat {
    match b
    case Red => 0
    case Yellow => 1
    case Green => 2
  }

  /** More stock never shows a more alarming badge. */
  lemma StockBadgeMonotone(s1: int, s2: int)
    requires s1 <= s2
    ensures BadgeRank(StockBadge(s1)) <= BadgeRank(StockBadge(s2))
  {
  }

  /** The path segment that introduces a store id in a browse URL. */
  const StorePath := "/store/"

  /** `getStoreUrl`: the browse URL of a store under the page's origin. */
  function StoreUrl(origin: string, storeId: string): (url: string)
    ensures |url| == |origin| + |StorePath| + |storeId|
    ensures url[..|origin|] == origin
    ensures url[|origin|..|origin| + |StorePath|] == StorePath
    ensures url[|origin| + |StorePath|..] == storeId
  {
    origin + StorePath + storeId
  }
}
