# Sell-us food store: the page handlers as pure functions

The food-store web application keeps all of its rules inside page event
handlers. Each handler reads some browser-local collections (`pantry_stores`,
`pantry_sellers`, `sellus_users`, `sellus_products`, and the
`*_current_*` session pointers), changes them, and writes them back. This
project lifts those handlers out as pure Dafny functions over one immutable
`Records.RecordStore` value. That value holds one field per collection plus
the three session pointers. A handler returns `Success(newStore)` or
`Failure(error)`, and a failure means nothing was written.

The modules follow the pages:

- `Registration`: the store sign-up and the seller sign-up. Each checks a
  capacity of 30 first, then a duplicate email. On success it appends the new
  record and sets the session pointer.
- `Login`: seller sign-in. The first seller whose email and password both
  match becomes the session.
- `Catalog`: adding and deleting a store's products. Each changes the
  session snapshot, then writes it back over the first master entry with the
  same id. No master entry with that id means no write.
- `Dashboard`: the stock and revenue totals, the stock badge, and the store
  URL that the QR code encodes.
- `Profile`: the profile edit. It merges the form into the user, replaces
  the user's entry, and renames the seller on every product the user owns.
  Also the owned and available figures.
- `Scanner`: manual entry of a store id or a store URL, and its round trip
  with the dashboard's URL.
- `Listings`:
  - the marketplace, pantry and store-directory filters;
  - the pantry's category colours;
  - the demo store;
  - the per-store totals.
- `Text`: the JavaScript string operations the pages use — `toLowerCase`,
  `includes`, `trim`, `split(...)[k]` and `Number.parseInt`.
- `Seqs`: the array idioms behind the handlers — `filter`, `findIndex`
  with a guarded assignment, and `reduce` with `+`.
- `Records` and `Wrappers`: the record types and `Option`/`Result`.

Generated ids, timestamps, QR tokens, the page origin and the parsed price are
parameters of the functions that need them.

## Model

| member | source | states |
|---|---|---|
| Registration.Gate | app/auth/register/page.tsx:36-49 | The capacity check comes before the email check. Sign-up passes exactly when the count is below the limit and the email is free. |
| Registration.NewStore | app/auth/register/page.tsx:51-59 | A new store carries every form field, the given id, timestamp and QR token, and present but empty product and transaction lists. |
| Registration.RegisterStore | app/auth/register/page.tsx:36-63 | Sign-up succeeds iff there are fewer than 30 stores and no store has the email. 30 or more gives a capacity error, whatever the email. On success the new store is appended after the unchanged old list and becomes the current store; nothing else changes. |
| Registration.RegisterStoreKeepsInvariant | app/auth/register/page.tsx:38-62 | A successful sign-up keeps store emails pairwise distinct and the count at most 30. |
| Registration.RegisterStoresBounded | app/auth/register/page.tsx:36-63 | After any sequence of sign-up attempts, starting within capacity with distinct emails, there are still at most 30 stores and the emails are still distinct. |
| Registration.NewSeller | app/register/page.tsx:50-58 | A new seller carries every form field, is active, and starts with zero sales and zero rating. |
| Registration.RegisterSeller | app/register/page.tsx:35-62 | Seller sign-up succeeds iff there are fewer than 30 sellers and the email is free, with the capacity check first. On success the new seller is appended and becomes the current seller; nothing else changes. |
| Registration.RegisterSellerKeepsInvariant | app/register/page.tsx:43-61 | A successful seller sign-up keeps seller emails distinct and the count at most 30. |
| Login.Login | app/login/page.tsx:29-38 | Sign-in succeeds iff some seller has exactly that email and password. On failure it reports invalid credentials and writes nothing. On success the first matching seller in list order becomes the current seller, and the seller list is untouched. |
| Login.LoginAfterRegister | app/login/page.tsx:29-38 | Right after a seller signs up, signing in with the same email and password selects that new seller. |
| Catalog.AddProduct | app/add-product/page.tsx:41-85 | There are four refusals, checked in this order: no session, an empty required field, a stock that does not parse, and a parsed stock above 30, each with its own error. Success holds iff there is a session, the form is complete, and the parsed stock is at most 30. On success the new product is appended after the unchanged old products. It is exactly the product built from the given id, the store's id, empty seller fields, the form's name, description and category, the price, the parsed stock, `available` false and the timestamp. The store's other fields are unchanged, the snapshot is written back into the master list, and nothing else changes. |
| Catalog.AddProductStock | app/add-product/page.tsx:55-73 | Adding a product keeps every stock in the store at or below 30. The store's stock total grows by exactly the new product's stock. |
| Records.WriteBack | app/add-product/page.tsx:80-85 | The first master entry with the snapshot's id becomes the snapshot and every other entry is unchanged. A master list without that id is left as it was. |
| Catalog.DeleteProduct | app/dashboard/page.tsx:36-51 | Deleting needs a session. A product remains iff it was there and its id differs from the target. Every copy of a product with another id survives, and no copy with the target id does. The survivors keep their order. The store's other fields are unchanged, and the master list gets the write-back. |
| Catalog.DeleteAbsentKeepsProducts | app/dashboard/page.tsx:37 | Deleting an id that no product has leaves the product list as it was. |
| Catalog.DeleteIdempotent | app/dashboard/page.tsx:36-51 | Deleting the same id twice gives the same records as deleting it once, master list included. |
| Catalog.DeleteProductStock | app/dashboard/page.tsx:37 | After a delete, the stock total is the old total minus the stock of the products with the deleted id. |
| Dashboard.TotalStock | app/dashboard/page.tsx:127 | The stock total of no products is 0; otherwise it is the first product's stock plus the total of the rest. |
| Dashboard.Revenue | app/dashboard/page.tsx:136 | The revenue of no sales is 0; otherwise it is the first sale's total plus the revenue of the rest. |
| Dashboard.TotalsAppend | app/dashboard/page.tsx:127-136 | The stock total and the revenue total of two lists put together are the sums of their totals. |
| Dashboard.TotalStockBounds | app/dashboard/page.tsx:127 | When every stock is between 0 and 30, the total stock is between 0 and 30 times the number of products. |
| Dashboard.RevenueGrowsWithSales | app/dashboard/page.tsx:136 | A new sale raises revenue by exactly its total, so a sale with a non-negative total never lowers it. |
| Dashboard.StockBadge | app/dashboard/page.tsx:211-213 | The badge is green iff stock is above 5, yellow iff stock is 1 to 5, and red iff stock is at most 0. |
| Dashboard.StockBadgeMonotone | app/dashboard/page.tsx:211-213 | More stock never shows a more alarming badge. |
| Dashboard.StoreUrl | app/dashboard/page.tsx:53-58 | The store URL is the origin, then `/store/`, then the store id, each at its own position. |
| Profile.Merge | app/profile/page.tsx:59 | The merged user takes name, phone, address and bio from the form, and keeps id, email, password and creation time. |
| Profile.RenameSeller | app/profile/page.tsx:73-77 | Products the user sells get the new seller name and nothing else changes on them. Every other product is unchanged, and the list keeps its length. |
| Profile.UpdateProfile | app/profile/page.tsx:53-83 | A profile edit fails without a session. Otherwise the session user becomes the merged user. In `sellus_users` only the first entry with the user's id is replaced, and a list without that id stays as it was. The product list gets the rename. Nothing else changes. |
| Profile.UpdateProfileIdempotent | app/profile/page.tsx:53-83 | Submitting the same profile edit twice gives the same records as submitting it once. |
| Profile.OwnedProducts | app/profile/page.tsx:48-50 | The owned list holds exactly the products whose seller id is the user's, every copy of each, in their original order. |
| Profile.AvailableCount | app/profile/page.tsx:223 | The available figure is the number of listed products marked available, counting 1 for each, so it never exceeds the number of listed products. |
| Profile.AvailableCountOfOwned | app/profile/page.tsx:223 | The available figure counts exactly the products that are both the user's and available. |
| Profile.RenameKeepsOwnedProducts | app/profile/page.tsx:73-77 | After the rename the user owns the same products, in order, each with the new name, and the available figure is unchanged. |
| Profile.RenamedSellerIsFound | app/profile/page.tsx:73-77 | After a rename, the marketplace search for the new name lists every available product of that user. |
| Scanner.UrlStoreId | app/scanner/page.tsx:24-28 | The URL branch yields nothing iff the input has no `/store/`. The id it extracts has no `?`, no `#` and no `/store/`. The id sits right after an occurrence of `/store/` in the input. It is the longest prefix of the second `/store/` split part that stops at the first `?` or `#`: it is a prefix of that part, and the part either ends there or continues with `?` or `#`. |
| Scanner.ManualEntry | app/scanner/page.tsx:21-35 | Blank input navigates nowhere. Input containing `/store/` goes to the extracted id, untrimmed. Any other input goes to the trimmed input. |
| Scanner.ScanSingle | app/scanner/page.tsx:24-28 | Suppose the input holds `/store/` only once and has no `?` or `#` after it. Then entry leads to everything after that `/store/`. |
| Scanner.ScanStoreUrl | app/scanner/page.tsx:24-28 | Scanning the dashboard's store URL leads back to the store. This needs an id with no `?`, `#` or `/store/`, and an origin with no `/store/` that does not end with `/store`. |
| Scanner.HostNamedStore | app/scanner/page.tsx:25-27 | With the origin `http://store`, scanning the URL of store `42` leads to `store/42`. The origin condition of the round trip is therefore needed. |
| Listings.MarketplaceBase | app/marketplace/page.tsx:35-38 | The marketplace loads exactly the available products, every copy of each, in order. |
| Listings.MarketplaceView | app/marketplace/page.tsx:47-66 | A product is listed iff it is in the base list and both filters pass. Search (skipped for the empty term) matches name, description or seller name, ignoring case. The category must be equal unless "All Categories" is chosen. Each listed product appears as many times as in the base list. The result keeps base order, and with neither filter it is the whole base list. |
| Listings.PantryBase | app/pantry/page.tsx:19-22 | The pantry loads exactly the products with stock above 0, every copy of each, in order. |
| Listings.PantryView | app/pantry/page.tsx:25-41 | A product is listed iff it is in the base list and both filters pass. Search matches name or seller name only, ignoring case; description is not searched. The category must be equal unless "all" is chosen. Each listed product appears as many times as in the base list. The result keeps order, and with neither filter it is the whole base list. |
| Listings.PantryListsNoRedBadge | app/pantry/page.tsx:20 | No product the pantry lists would show the dashboard's red badge. |
| Listings.CategoryColor | app/pantry/page.tsx:43-54 | The colour function as written maps `sweet` to pink, `viand` to blue and `others` to yellow, and gives gray to every other name. |
| Listings.CatalogCategoriesAllGray | app/pantry/page.tsx:43-54 | Every category the add-product form offers (`Sweet`, `Viand`, `Others`) gets the gray default. |
| Listings.CategoryBadgeColor | app/pantry/page.tsx:129 | The corrected colouring gives a non-gray class exactly for names equal to `sweet`, `viand` or `others` ignoring case. |
| Listings.CategoryBadgeColorDistinguishes | app/pantry/page.tsx:43-54 | The corrected colouring gives each offered category its own non-gray class, and agrees with the function as written on lower-case names. |
| Listings.MentionsEmpty | app/stores/page.tsx:40-45 | Every field matches the empty search term. |
| Listings.WithDemo | app/stores/page.tsx:21-36 | The directory is the demo store followed by the registered stores in order. |
| Listings.DemoBadgeOnlyFirst | app/stores/page.tsx:108 | When no registered store uses the demo id, the Demo badge shows on the first entry of the directory and on no other. |
| Listings.StoreSearch | app/stores/page.tsx:39-47 | A store is listed iff its name, owner or description contains the term, ignoring case, and then with every copy it has. Order is kept, and the empty term keeps every store. |
| Listings.TotalProducts | app/stores/page.tsx:49-51 | A store without a product list counts 0 products; otherwise the count is the list's length. |
| Listings.StoreStock | app/stores/page.tsx:53-55 | A store without a product list has stock 0; otherwise its stock is the dashboard's stock total of its products. |
| Listings.DemoTotals | app/stores/page.tsx:21-32 | The demo store lists 3 products holding 50 units. |
| Text.ParseIntDecimal | app/add-product/page.tsx:55 | After any leading white space and an optional `+` or `-`, `parseInt` reads the decimal rendering of any natural number as that number, negated after `-`, whatever non-digit text follows. |
| Text.ParseInt | app/add-product/page.tsx:55 | `Number.parseInt` gives NaN exactly when, after leading white space and one sign, no digit starts the magnitude, where a `0x` prefix asks for a hexadecimal digit. A negative result comes only from a leading `-`, and a leading `-` never gives a positive result. |
| Text.ParseIntBlank | app/add-product/page.tsx:55 | Blank text does not parse as a number. |
| Text.Trim | app/scanner/page.tsx:22 | Trimming leaves nothing iff the text is all white space. Otherwise it leaves a piece of the text that starts and ends with a non-space. The piece sits in the text with only white space before and after it. |
| Text.TrimIdempotent | app/scanner/page.tsx:22 | Trimming trimmed text changes nothing. |
| Text.SecondPart | app/scanner/page.tsx:25-27 | The second split part exists iff the separator occurs. It starts right after the first occurrence of the separator and has no separator in it. It runs to the next occurrence of the separator, or to the end of the text when there is none. |
| Text.SecondPartOfSingle | app/scanner/page.tsx:25-27 | When the separator occurs once, the second split part is the whole rest of the text. |
| Text.Before | app/scanner/page.tsx:27 | `split(c)[0]` is a prefix of the text with no `c` in it, and the text continues with `c` if it is longer. |
| Text.Lower | app/marketplace/page.tsx:54 | Lower-casing keeps the length and maps each character on its own, turning `A`-`Z` into `a`-`z` and keeping everything else. |
| Seqs.FilterIf | app/marketplace/page.tsx:51-62 | A filter applied only when its control is set keeps every copy of each element that passes, drops the rest, keeps order, and changes nothing when the control is not set. |
| Text.LowerIdempotent | app/marketplace/page.tsx:54 | Lower-casing twice equals lower-casing once, and lower-cased text has no capital ASCII letter. |

## Left out

- Catalog.AddProduct: a stock that does not parse (`parseInt` gives NaN) is refused with `StockNotANumber`. The page instead lets NaN through, because `NaN > 30` is false. `JSON.stringify` then writes the stock as `null`. A missing stock is not an integer, so the model refuses rather than storing it.
- Catalog.AddProduct: only the upper stock bound of 30 is checked, as on the page; a negative stock is accepted.
- Catalog.AddProduct: `parseFloat` of the price is not modelled. The price is an integer parameter, for example in cents.
- Text.ParseInt: huge digit runs are exact integers here, whereas JavaScript rounds them to double precision.
- Text.Lower: only ASCII letters are lower-cased, not the full Unicode `toLowerCase`.
- Dashboard.StoreUrl: server rendering, where `getStoreUrl` returns the empty string because `window` is absent, is not modelled; the origin is a parameter.
- Local storage and JSON themselves: they are not modelled. Fields a record does not carry read as `""` or `false`. A collection never written reads as empty.
- Ids, timestamps and QR tokens: generated from the clock on the page, here passed in as parameters.
- Navigation: router pushes, `setTimeout` delays and `window.location` assignments are not modelled. The scanner returns the path it would navigate to.
- Scanner camera: starting and stopping it, `getUserMedia`, and the QR image fetched from an external service are device and network I/O.
- Page rendering: JSX, CSS classes other than the stock badge and the category colours, `toLocaleString`, and the `/4` display on the profile page.
- Cart, checkout, stock decrement on sale, reviews and ratings: these live in the store and product pages, which are not part of this model.
- Editing a product: app/edit-product/[id]/page.tsx is not part of this model.
- The landing page: app/page.tsx has no logic.

## Findings

| source | as written | input that shows it | evidently intended | confidence | as-written member | corrected member |
|---|---|---|---|---|---|---|
| app/pantry/page.tsx:43-54 | The colour switch compares the category with lower-case `sweet`, `viand` and `others`. The pantry's category select (app/pantry/page.tsx:100-103) uses the same lower-case values. The pantry reads its products from `pantry_products`, which no page in this model writes. The add-product page writes its products into the stores of `pantry_stores`, with the capitalised categories `Sweet`, `Viand` and `Others`. | A product with category `Sweet`, as the add-product form stores it, gets the gray default, as do `Viand` and `Others` | Each of the three food categories gets its own colour, whatever its case | low, not executed | Listings.CatalogCategoriesAllGray | Listings.CategoryBadgeColorDistinguishes |
