/**
 * The "You May Also Like" list of the product page:
 * `products.filter(p => p.category === product.category && p.id !== product.id).slice(0, 3)`.
 */
module Recommendations {
  import opened Catalog

  /** How many related products the page shows at most. */
  const MaxRelated := 3

  /** `p` shares the current product's category and is not the current product. */
  predicate IsRelated(current: Product, p: Product) {
    p.category == current.category && p.id != current.id
  }

  /** `a` can be obtained from `b` by deleting elements, keeping the order of the rest. */
  predicate Subsequence<T(==)>(a: seq<T>, b: seq<T>)
    decreases |b|
  {
    if a == [] then true
    else if b == [] then false
    else if a[0] == b[0] then Subsequence(a[1..], b[1..])
    else Subsequence(a, b[1..])
  }

  /** The `filter` step: every related product of the catalog, in catalog order. */
  function Matches(catalog: seq<Product>, current: Product): (r: seq<Product>)
    ensures forall p :: p in r <==> p in catalog && IsRelated(current, p)
    ensures Subsequence(r, catalog)
  {
    if catalog == [] then []
    else
      var rest := Matches(catalog[1..], current);
      assert forall p :: p in catalog <==> p == catalog[0] || p in catalog[1..];
      if IsRelated(current, catalog[0]) then
        assert ([catalog[0]] + rest)[1..] == rest;
        [catalog[0]] + rest
      else
        assert rest != [] ==> rest[0] != catalog[0];
        rest
  }

  /** The related products the page lists for `current`. */
  function RelatedProducts(catalog: seq<Product>, current: Product): (r: seq<Product>)
    ensures |r| <= MaxRelated
    ensures forall p :: p in r ==> p.category == current.category && p.id != current.id
    ensures Subsequence(r, catalog)
    ensures |r| < MaxRelated ==> forall p :: p in catalog && IsRelated(current, p) ==> p in r
  {
    var m := Matches(catalog, current);
    var n := if |m| < MaxRelated then |m| else MaxRelated;
    PrefixSubsequence(m, catalog, n);
    assert n < MaxRelated ==> m[..n] == m;
    assert forall p :: p in m[..n] ==> p in m;
    m[..n]
  }

  /** A prefix of a subsequence is a subsequence. */
  lemma {:induction false} PrefixSubsequence<T>(a: seq<T>, b: seq<T>, n: nat)
    requires n <= |a| && Subsequence(a, b)
    ensures Subsequence(a[..n], b)
    decreases |b|
  {
    if n > 0 {
      assert a != [] && b != [];
      if a[0] == b[0] {
        PrefixSubsequence(a[1..], b[1..], n - 1);
        assert a[..n][1..] == a[1..][..n - 1];
      } else {
        PrefixSubsequence(a, b[1..], n);
      }
    }
  }

  /** Filtering a concatenation filters each part. */
  lemma {:induction false} MatchesAppend(a: seq<Product>, b: seq<Product>, current: Product)
    ensures Matches(a + b, current) == Matches(a, current) + Matches(b, current)
  {
    if a == [] {
      assert a + b == b;
    } else {
      assert (a + b)[0] == a[0] && (a + b)[1..] == a[1..] + b;
      MatchesAppend(a[1..], b, current);
    }
  }

  /** The list is built by scanning the catalog front to back: once a front part of the
      catalog yields three related products, the rest of the catalog is never consulted;
      otherwise the rest contributes its first related products until three are found. */
  lemma RelatedAreFirstMatches(a: seq<Product>, b: seq<Product>, current: Product)
    ensures var front := RelatedProducts(a, current);
      RelatedProducts(a + b, current)
        == if |front| == MaxRelated then front
           else front + RelatedProducts(b, current)[..Min(MaxRelated - |front|, |RelatedProducts(b, current)|)]
  {
    MatchesAppend(a, b, current);
    var ma, mb := Matches(a, current), Matches(b, current);
    if |ma| >= MaxRelated {
      assert (ma + mb)[..MaxRelated] == ma[..MaxRelated];
    } else {
      var k := Min(MaxRelated - |ma|, |mb|);
      var n := if |ma + mb| < MaxRelated then |ma + mb| else MaxRelated;
      assert n == |ma| + k;
      assert (ma + mb)[..n] == ma + mb[..k];
    }
  }

  function Min(x: int, y: int): int {
    if x < y then x else y
  }

  /** Four products A, B, C (category "gi") and D ("belt"): for A the page lists B and C. */
  lemma RelatedExample(a: Product, b: Product, c: Product, d: Product)
    requires a.category == b.category == c.category == "gi" && d.category == "belt"
    requires a.id == "A" && b.id == "B" && c.id == "C" && d.id == "D"
    ensures RelatedProducts([a, b, c, d], a) == [b, c]
  {
    assert [a, b, c, d][1..] == [b, c, d];
    assert [b, c, d][1..] == [c, d];
    assert [c, d][1..] == [d];
    assert Matches([d], a) == [] by { assert [d][1..] == []; }
    assert Matches([c, d], a) == [c];
    assert Matches([b, c, d], a) == [b, c];
    assert Matches([a, b, c, d], a) == [b, c];
  }
}
