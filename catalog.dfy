/**
 * The product catalog the product page reads: product and variant records,
 * and the lookup of a product by its identifier (`products.find(p => p.id === productId)`).
 */
module Catalog {
  import opened Wrappers

  /** A variant record `{size?: string; color?: string}`; an absent attribute is `None`. */
  datatype Variant = Variant(size: Option<string>, color: Option<string>)

  /** A catalog record, reduced to the fields the product page's logic reads. */
  datatype Product = Product(
    id: string,
    category: string,
    inStock: bool,
    images: seq<string>,
    variants: Option<seq<Variant>>)

  /** The variant with neither attribute set: the initial `{}` selection. */
  const NoSelection := Variant(None, None)

  /** True when the product carries a non-empty variant list
      (`foundProduct.variants && foundProduct.variants.length > 0`). */
  predicate HasVariants(p: Product) {
    p.variants.Some? && |p.variants.value| > 0
  }

  /** Some record of the catalog carries identifier `id`. */
  ghost predicate Listed(catalog: seq<Product>, id: string) {
    exists i :: 0 <= i < |catalog| && catalog[i].id == id
  }

  /** `Array.prototype.find` on the catalog: the first record whose id equals `id`. */
  function Find(catalog: seq<Product>, id: string): (r: Option<Product>)
    ensures r.Some? <==> Listed(catalog, id)
    ensures r.Some? ==> r.value in catalog && r.value.id == id
  {
    if catalog == [] then None
    else if catalog[0].id == id then Some(catalog[0])
    else
      var r := Find(catalog[1..], id);
      assert r.None? ==> forall i :: 1 <= i < |catalog| ==> catalog[i].id == catalog[1..][i - 1].id != id;
      r
  }

  /** The lookup returns the FIRST record carrying the identifier, not just any. */
  lemma {:induction false} FindFirst(catalog: seq<Product>, id: string, k: nat)
    requires k < |catalog| && catalog[k].id == id
    requires forall j :: 0 <= j < k ==> catalog[j].id != id
    ensures Find(catalog, id) == Some(catalog[k])
  {
    if k > 0 {
      FindFirst(catalog[1..], id, k - 1);
    }
  }
}
