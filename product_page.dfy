/**
 * The product detail view: the five pieces of state the page keeps (`product`,
 * `currentImageIndex`, `quantity`, `selectedVariant`, `addedToCart`), the lookup
 * effect, the confirmation-timer effect and the event handlers that update that state.
 */
module ProductPage {
  import opened Wrappers
  import opened Catalog
  import opened VariantOptions

  /** One call of the cart store's `addToCart(product, quantity)`. */
  datatype CartCall = CartCall(product: Product, quantity: int)

  /** The quantity the typed input hands to the handler, `parseInt(text) || 1`:
      `None` stands for a text that parses to NaN. NaN and 0 are falsy and become 1;
      every other parsed number, negative ones included, is passed on as it is. */
  function TypedQuantity(parsed: Option<int>): (q: int)
    ensures q != 0
    ensures q == 1 || parsed == Some(q)
    ensures parsed.Some? && parsed.value != 0 ==> q == parsed.value
  {
    match parsed
    case None => 1
    case Some(n) => if n == 0 then 1 else n
  }

  class ProductView {
    /** The static `products` list the page searches. */
    const catalog: seq<Product>
    var product: Option<Product>
    var currentImageIndex: nat
    var quantity: int
    var selectedVariant: Variant
    var addedToCart: bool
    /** A scheduled clear of `addedToCart` that has neither fired nor been cancelled. */
    var confirmationTimer: bool
    /** The view is on screen; false once it has been torn down. */
    var mounted: bool
    /** Every call made to the cart store, in order. */
    ghost var cartCalls: seq<CartCall>

    /** What holds in every reachable state. */
    ghost predicate Valid()
      reads this
    {
      && quantity >= 1
      && (product.Some? ==> product.value in catalog)
      && confirmationTimer == (mounted && addedToCart)
      && (addedToCart ==> cartCalls != [])
      && forall c :: c in cartCalls ==> c.quantity >= 1 && c.product.inStock && c.product in catalog
    }

    /** The page renders "Product Not Found". */
    predicate NotFound()
      reads this
    {
      product.None?
    }

    /** The add button is enabled: `disabled={!product.inStock || addedToCart}`. */
    predicate AddButtonEnabled()
      reads this
    {
      product.Some? && product.value.inStock && !addedToCart
    }

    /** The main image, `product.images[currentImageIndex]`; `None` is JavaScript's `undefined`. */
    function ShownImage(): Option<string>
      reads this
    {
      if product.Some? && currentImageIndex < |product.value.images|
      then Some(product.value.images[currentImageIndex])
      else None
    }

    /** The initial state of the `useState` hooks. */
    constructor (catalog: seq<Product>)
      ensures Valid() && this.catalog == catalog && mounted
      ensures product == None && currentImageIndex == 0 && quantity == 1
      ensures selectedVariant == NoSelection && !addedToCart && cartCalls == []
    {
      this.catalog := catalog;
      product := None;
      currentImageIndex := 0;
      quantity := 1;
      selectedVariant := NoSelection;
      addedToCart := false;
      confirmationTimer := false;
      mounted := true;
      cartCalls := [];
    }

    /** The lookup effect, run for each new route identifier. A failed lookup changes
        nothing; neither the image index nor, for a product without variants, the
        selection is reset. Because a failed lookup changes nothing, calling this twice
        with the same identifier has the effect of a navigation to an unknown
        identifier and back. */
    method LoadProduct(id: string)
      requires Valid() && mounted
      modifies this`product, this`selectedVariant
      ensures Valid()
      ensures Find(catalog, id).None? ==> product == old(product) && selectedVariant == old(selectedVariant)
      ensures Find(catalog, id).Some? ==> product == Find(catalog, id)
      ensures Find(catalog, id).Some? && HasVariants(product.value) ==>
                selectedVariant == product.value.variants.value[0]
      ensures Find(catalog, id).Some? && !HasVariants(product.value) ==> selectedVariant == old(selectedVariant)
      ensures old(product).Some? ==> product.Some?
    {
      var found := Find(catalog, id);
      if found.Some? {
        product := found;
        if HasVariants(found.value) {
          selectedVariant := found.value.variants.value[0];
        }
      }
    }

    /** `handleQuantityChange`: values below 1 are ignored, others are taken as they are. */
    method HandleQuantityChange(value: int)
      requires Valid() && mounted && product.Some?
      modifies this`quantity
      ensures Valid()
      ensures value < 1 ==> quantity == old(quantity)
      ensures value >= 1 ==> quantity == value
    {
      if value < 1 {
        return;
      }
      quantity := value;
    }

    /** The minus button (disabled when out of stock). */
    method ClickDecrement()
      requires Valid() && mounted && product.Some? && product.value.inStock
      modifies this`quantity
      ensures Valid()
      ensures quantity == if old(quantity) == 1 then 1 else old(quantity) - 1
    {
      HandleQuantityChange(quantity - 1);
    }

    /** The plus button (disabled when out of stock). */
    method ClickIncrement()
      requires Valid() && mounted && product.Some? && product.value.inStock
      modifies this`quantity
      ensures Valid()
      ensures quantity == old(quantity) + 1
    {
      HandleQuantityChange(quantity + 1);
    }

    /** Typing into the quantity field (disabled when out of stock). */
    method EnterQuantity(parsed: Option<int>)
      requires Valid() && mounted && product.Some? && product.value.inStock
      modifies this`quantity
      ensures Valid()
      ensures parsed.None? || parsed == Some(0) ==> quantity == 1
      ensures parsed.Some? && parsed.value < 0 ==> quantity == old(quantity)
      ensures parsed.Some? && parsed.value >= 1 ==> quantity == parsed.value
    {
      HandleQuantityChange(TypedQuantity(parsed));
    }

    /** `handleAddToCart`: nothing for an out-of-stock product; otherwise one cart call
        with the current quantity, the confirmation shown and the quantity reset to 1.
        Showing the confirmation (re)runs the timer effect, which schedules its clear. */
    method HandleAddToCart()
      requires Valid() && mounted && product.Some?
      modifies this`quantity, this`addedToCart, this`confirmationTimer, this`cartCalls
      ensures Valid()
      ensures !product.value.inStock ==>
                && quantity == old(quantity) && addedToCart == old(addedToCart)
                && confirmationTimer == old(confirmationTimer) && cartCalls == old(cartCalls)
      ensures product.value.inStock ==>
                && cartCalls == old(cartCalls) + [CartCall(product.value, old(quantity))]
                && addedToCart && confirmationTimer && quantity == 1
                && !AddButtonEnabled()
    {
      if !product.value.inStock {
        return;
      }
      cartCalls := cartCalls + [CartCall(product.value, quantity)];
      addedToCart := true;
      confirmationTimer := true;
      quantity := 1;
    }

    /** A click on the add button, which the page only lets through while it is enabled. */
    method ClickAddToCart()
      requires Valid() && mounted && AddButtonEnabled()
      modifies this`quantity, this`addedToCart, this`confirmationTimer, this`cartCalls
      ensures Valid()
      ensures cartCalls == old(cartCalls) + [CartCall(product.value, old(quantity))]
      ensures addedToCart && confirmationTimer && quantity == 1
      ensures !AddButtonEnabled()
    {
      HandleAddToCart();
    }

    /** A size button: replaces the selected size and keeps the selected colour. */
    method SelectSize(size: string)
      requires Valid() && mounted && product.Some? && size in Sizes(product.value)
      modifies this`selectedVariant
      ensures Valid()
      ensures selectedVariant.size == Some(size) && selectedVariant.color == old(selectedVariant.color)
    {
      selectedVariant := selectedVariant.(size := Some(size));
    }

    /** A colour button: replaces the selected colour and keeps the selected size. */
    method SelectColor(color: string)
      requires Valid() && mounted && product.Some? && color in Colors(product.value)
      modifies this`selectedVariant
      ensures Valid()
      ensures selectedVariant.color == Some(color) && selectedVariant.size == old(selectedVariant.size)
    {
      selectedVariant := selectedVariant.(color := Some(color));
    }

    /** A thumbnail button; thumbnails are shown only for products with more than one image. */
    method SelectImage(index: nat)
      requires Valid() && mounted && product.Some?
      requires |product.value.images| > 1 && index < |product.value.images|
      modifies this`currentImageIndex
      ensures Valid()
      ensures currentImageIndex == index && currentImageIndex < |product.value.images|
      ensures ShownImage() == Some(product.value.images[index])
    {
      currentImageIndex := index;
    }

    /** The scheduled clear fires: the confirmation disappears, and the add button is
        enabled again exactly when the product is in stock. */
    method ExpireConfirmation()
      requires Valid() && confirmationTimer
      modifies this`addedToCart, this`confirmationTimer
      ensures Valid()
      ensures !addedToCart && !confirmationTimer
      ensures AddButtonEnabled() == (product.Some? && product.value.inStock)
    {
      addedToCart := false;
      confirmationTimer := false;
    }

    /** The view is torn down; the timer effect's cleanup cancels a pending clear. */
    method Unmount()
      requires Valid() && mounted
      modifies this`mounted, this`confirmationTimer
      ensures Valid()
      ensures !mounted && !confirmationTimer
    {
      mounted := false;
      confirmationTimer := false;
    }
  }

  /** A route identifier that no catalog record carries leaves a fresh view on the
      not-found page. */
  method UnknownProductStaysNotFound(catalog: seq<Product>, id: string) returns (notFound: bool)
    requires !Listed(catalog, id)
    ensures notFound
  {
    var view := new ProductView(catalog);
    view.LoadProduct(id);
    notFound := view.NotFound();
  }

  /** Navigating from a three-image product showing its third image to a one-image product
      without variants keeps the image index and the selection: the main image is then
      `undefined`, and the first product's default variant stays selected. */
  method StaleStateAfterNavigation() returns (shown: Option<string>, selection: Variant)
    ensures shown == None
    ensures selection == Variant(Some("L"), Some("black"))
  {
    var gi := Product("gi", "gi", true, ["front", "back", "detail"], Some([Variant(Some("L"), Some("black"))]));
    var belt := Product("belt", "belt", true, ["belt"], None);
    var view := new ProductView([gi, belt]);
    FindFirst([gi, belt], "gi", 0);
    view.LoadProduct("gi");
    view.SelectImage(2);
    assert "gi" != "belt" by { assert |"gi"| != |"belt"|; }
    FindFirst([gi, belt], "belt", 1);
    view.LoadProduct("belt");
    shown := view.ShownImage();
    selection := view.selectedVariant;
  }

  /** One add, then the button stays disabled whatever else the shopper does, navigating
      away and back included, until the confirmation expires. */
  method ConfirmationCycle(catalog: seq<Product>, id: string, size: string)
      returns (enabledAfterAdd: bool, enabledAfterExpiry: bool, quantityAfterAdd: int)
    requires Find(catalog, id).Some? && Find(catalog, id).value.inStock
    requires size in Sizes(Find(catalog, id).value)
    ensures !enabledAfterAdd && enabledAfterExpiry && quantityAfterAdd == 1
  {
    var view := new ProductView(catalog);
    view.LoadProduct(id);
    view.ClickIncrement();
    view.ClickAddToCart();
    quantityAfterAdd := view.quantity;
    view.ClickIncrement();
    view.SelectSize(size);
    // a navigation to an unknown identifier and back to `id`
    view.LoadProduct(id);
    enabledAfterAdd := view.AddButtonEnabled();
    view.ExpireConfirmation();
    enabledAfterExpiry := view.AddButtonEnabled();
  }

  /** From quantity 1 the minus button and a typed 0 both leave the quantity at 1. */
  method QuantityFloor(catalog: seq<Product>, id: string) returns (afterMinus: int, afterZero: int)
    requires Find(catalog, id).Some? && Find(catalog, id).value.inStock
    ensures afterMinus == 1 && afterZero == 1
  {
    var view := new ProductView(catalog);
    view.LoadProduct(id);
    view.ClickDecrement();
    afterMinus := view.quantity;
    view.EnterQuantity(Some(0));
    afterZero := view.quantity;
  }
}
