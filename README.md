# Product detail page: a Dafny model

This project models the logic of the storefront's product detail page
(`ProductPage`): looking up the product named by the route, the quantity
selector, adding to the cart with a transient "Added to Cart" confirmation that
a timer clears, size/colour/thumbnail selection, and two lists the page derives
from the catalog: the distinct size and colour options, and up to three
related products.

- `wrappers.dfy`: `Option`, for `undefined` fields and failed lookups.
- `catalog.dfy` (module `Catalog`): product and variant records and `Find`,
  the page's `products.find(p => p.id === productId)`. The catalog module
  itself is an input: a `seq<Product>`.
- `variant_options.dfy` (module `VariantOptions`): the `sizes` and `colors`
  lists, `[...new Set(variants.filter(v => v.size).map(v => v.size))]`.
  `Distinct` models the insertion-ordered `Set`. `TruthyValues` models the
  filter and the map. JavaScript truthiness of a string field means "present
  and not the empty string".
- `related.dfy` (module `Recommendations`): the related-products list,
  `filter(same category, other id).slice(0, 3)`.
- `product_page.dfy` (module `ProductPage`): class `ProductView`. It has the
  five `useState` fields. The effects and handlers are methods. A ghost log
  `cartCalls` records every call to the cart store. `Valid()` is the invariant
  of every reachable state: quantity is at least 1, the product comes from the
  catalog, a clear is pending exactly while the confirmation shows on a mounted
  view, and every logged cart call carries an in-stock product and a
  quantity of at least 1. Four client methods at the end walk through
  scenarios.

Behaviour kept as the code has it:
- A failed lookup changes nothing. Only the initial `null` shows
  "Product Not Found", and a view that has shown a product never goes back to
  it.
- A new product does not reset `currentImageIndex`. A product without variants
  does not reset `selectedVariant`. `StaleStateAfterNavigation` shows both:
  after navigating, the main image is `undefined`. One might expect the image
  index to stay a valid index of the shown product's images. The code does not
  guarantee that, and the model follows the code.
- Navigation also keeps `quantity`, `addedToCart` and a pending clear. After an
  add, the add button of a newly opened product therefore stays disabled until
  the clear fires.
- Selection is attribute-wise. Selecting a size keeps the colour, whether or
  not a variant with that pair exists.
- A new add before expiry cannot restart the timer. The button is disabled
  while the confirmation shows. Also, setting `addedToCart` to `true` when it is
  already `true` does not re-run the timer effect. `HandleAddToCart` on a view
  that already shows the confirmation therefore keeps the pending clear.
- Handlers exist only once a product is loaded (they are defined after the
  not-found return), so every handler requires `product.Some?`. The quantity
  controls are disabled for out-of-stock products, so their click methods
  require `inStock`. The add button is disabled unless
  `inStock && !addedToCart`, so `ClickAddToCart` requires `AddButtonEnabled()`.
  The handler `HandleAddToCart` itself still models its own out-of-stock
  check.

## Model

| member | source | states |
|---|---|---|
| `Catalog.Find` | src/pages/ProductPage.tsx:21 | The lookup succeeds exactly when some catalog record carries the id; what it returns is a catalog record with that id |
| `Catalog.FindFirst` | src/pages/ProductPage.tsx:21 | The lookup returns the first record in catalog order that carries the id |
| `VariantOptions.Distinct` | src/pages/ProductPage.tsx:73 | Set-based de-duplication has no duplicates, keeps exactly the input's values, and is no longer than the input |
| `VariantOptions.DistinctFirstOccurrenceOrder` | src/pages/ProductPage.tsx:73 | De-duplicated values are ordered by their first occurrence in the input |
| `VariantOptions.TruthyValues` | src/pages/ProductPage.tsx:73 | The filter-then-map holds a value exactly when some variant carries it as a non-empty attribute |
| `VariantOptions.Options` | src/pages/ProductPage.tsx:72-78 | The size (colour) options are empty without a variant list, have no duplicates, and contain exactly the truthy sizes (colours) some variant carries |
| `VariantOptions.TruthyValuesAppend` | src/pages/ProductPage.tsx:73 | The filter-then-map of a concatenated variant list is the concatenation of the parts' results, so the values follow variant order |
| `VariantOptions.OptionsFirstOccurrenceOrder` | src/pages/ProductPage.tsx:72-78 | Options are listed in the order their values first occur among the variants' truthy values |
| `VariantOptions.SizesAndColorsExample` | src/pages/ProductPage.tsx:72-78 | Variants M, L and black give sizes [M, L] and colours [black] |
| `Recommendations.Matches` | src/pages/ProductPage.tsx:274-275 | The filter keeps exactly the catalog products of the same category with another id, as an order-preserving subsequence of the catalog |
| `Recommendations.MatchesAppend` | src/pages/ProductPage.tsx:275 | Filtering a concatenated catalog filters each part and concatenates the results |
| `Recommendations.RelatedProducts` | src/pages/ProductPage.tsx:274-276 | At most 3 entries, each of the current category and never the current id, forming a subsequence of the catalog; if fewer than 3 are listed, every related catalog product is listed |
| `Recommendations.RelatedAreFirstMatches` | src/pages/ProductPage.tsx:274-276 | The list holds the first related products in catalog order: a catalog front part that already yields 3 decides the list, otherwise the rest supplies its first matches up to 3 |
| `Recommendations.RelatedExample` | src/pages/ProductPage.tsx:274-276 | For A, B, C in "gi" and D in "belt", A's related products are [B, C] |
| `ProductPage.TypedQuantity` | src/pages/ProductPage.tsx:214 | `parseInt(...) \|\| 1` is never 0; NaN and 0 become 1, any other parsed number passes unchanged |
| `ProductPage.ProductView.constructor` | src/pages/ProductPage.tsx:11-15 | Initial state: no product, image 0, quantity 1, empty selection, no confirmation, no cart call |
| `ProductPage.ProductView.LoadProduct` | src/pages/ProductPage.tsx:20-30 | A found product replaces `product`, and its first variant (if any) replaces the selection; a failed lookup changes nothing, and a shown product is never replaced by not-found |
| `ProductPage.ProductView.HandleQuantityChange` | src/pages/ProductPage.tsx:58-61 | Values below 1 leave the quantity unchanged; any other value becomes the quantity; quantity stays at least 1 |
| `ProductPage.ProductView.ClickDecrement` | src/pages/ProductPage.tsx:203-209 | Minus lowers the quantity by one, except at 1 where it stays 1 |
| `ProductPage.ProductView.ClickIncrement` | src/pages/ProductPage.tsx:218-224 | Plus raises the quantity by one |
| `ProductPage.ProductView.EnterQuantity` | src/pages/ProductPage.tsx:210-217 | Typed NaN or 0 sets quantity 1, a negative number is ignored, a positive number is taken |
| `ProductPage.ProductView.HandleAddToCart` | src/pages/ProductPage.tsx:63-69 | Out of stock: no cart call and no state change. In stock: exactly one cart call with the pre-call quantity, confirmation shown with its clear scheduled, quantity 1, add button disabled |
| `ProductPage.ProductView.ClickAddToCart` | src/pages/ProductPage.tsx:229-231 | An enabled add button makes exactly one cart call and disables itself |
| `ProductPage.ProductView.SelectSize` | src/pages/ProductPage.tsx:160-163 | A size button sets the selected size and keeps the selected colour |
| `ProductPage.ProductView.SelectColor` | src/pages/ProductPage.tsx:182-185 | A colour button sets the selected colour and keeps the selected size |
| `ProductPage.ProductView.SelectImage` | src/pages/ProductPage.tsx:111-116 | A thumbnail sets the image index to a valid index of the product's images, whose image is then shown |
| `ProductPage.ProductView.ExpireConfirmation` | src/pages/ProductPage.tsx:33-37 | Only a pending clear can fire; it hides the confirmation, and the add button is then enabled exactly when the product is in stock |
| `ProductPage.ProductView.Unmount` | src/pages/ProductPage.tsx:39 | Tearing the view down cancels a pending clear, so none can fire afterwards |
| `ProductPage.UnknownProductStaysNotFound` | src/pages/ProductPage.tsx:20-56 | An id no record carries leaves a fresh view on the not-found page |
| `ProductPage.StaleStateAfterNavigation` | src/pages/ProductPage.tsx:20-30 | After navigating away from a third image, a one-image product shows `undefined`, and the previous selection persists |
| `ProductPage.ConfirmationCycle` | src/pages/ProductPage.tsx:33-69 | After an add, the button stays disabled through quantity and size events and a navigation away and back until the confirmation expires, then it is enabled again; the quantity after an add is 1 |
| `ProductPage.QuantityFloor` | src/pages/ProductPage.tsx:203-214 | From quantity 1, minus and a typed 0 both leave quantity 1 |

## Left out

- Rendering: JSX, styling classes, page metadata, animation and links are presentation only.
- Time: the 3000 ms delay is not modelled. The timer is a pending/cancelled flag, and its firing is the event `ExpireConfirmation`.
- Price display (`toFixed(2)`): floating-point formatting; price is not part of `Product`.
- The cart store: it is not part of this model. Its `addToCart` is recorded in the ghost log `cartCalls` and has no other effect.
- The `products` data module is not part of this model. The catalog is a constructor parameter.
- `parseInt`: string parsing is not modelled. `EnterQuantity` receives its result as `Option<int>` (`None` for NaN).
- Quantities are unbounded integers. JavaScript number precision above 2^53 is not modelled.
- React's re-render bookkeeping is not modelled. Each effect is modelled by its net effect on state.
- The payment modal in src/components/PaymentModal.tsx is pure presentation around a fixed delay and a browser alert, so it is not modelled. The styling configuration in tailwind.config.js has no behaviour and is not modelled either.
