/**
 * The size and colour options the product page offers:
 * `[...new Set(product.variants.filter(v => v.size).map(v => v.size))]`, or `[]`
 * when the product has no variant list, and the same for colours.
 */
module VariantOptions {
  import opened Wrappers
  import opened Catalog

  /** The two variant attributes a shopper chooses from. */
  datatype Attribute = Size | Color

  function Attr(v: Variant, a: Attribute): Option<string> {
    match a
    case Size => v.size
    case Color => v.color
  }

  /** JavaScript truthiness of an optional string: present and not the empty string. */
  predicate Truthy(o: Option<string>) {
    o.Some? && o.value != ""
  }

  /** No value occurs twice. */
  ghost predicate NoDuplicates<T>(s: seq<T>) {
    forall i, j :: 0 <= i < j < |s| ==> s[i] != s[j]
  }

  /** Position of the first occurrence of `x` in `s`. */
  function IndexOf<T(==)>(s: seq<T>, x: T): (k: nat)
    requires x in s
    ensures k < |s| && s[k] == x
    ensures forall j :: 0 <= j < k ==> s[j] != x
  {
    if s[0] == x then 0 else 1 + IndexOf(s[1..], x)
  }

  /** `[...new Set(s)]`: a Set remembers insertion order and ignores re-insertions,
      so each value is kept at its first occurrence. */
  function Distinct<T(==,!new)>(s: seq<T>): (r: seq<T>)
    ensures NoDuplicates(r)
    ensures forall x :: x in r <==> x in s
    ensures |r| <= |s|
  {
    if s == [] then []
    else
      var d := Distinct(s[..|s| - 1]);
      assert s == s[..|s| - 1] + [s[|s| - 1]];
      if s[|s| - 1] in d then d else d + [s[|s| - 1]]
  }

  /** `vs.filter(v => v.<a>).map(v => v.<a>)`. */
  function TruthyValues(vs: seq<Variant>, a: Attribute): (r: seq<string>)
    ensures |r| <= |vs|
    ensures forall x :: x in r <==> exists v :: v in vs && Attr(v, a) == Some(x) && x != ""
  {
    if vs == [] then []
    else
      var rest := TruthyValues(vs[1..], a);
      assert forall v :: v in vs <==> v == vs[0] || v in vs[1..];
      if Truthy(Attr(vs[0], a)) then [Attr(vs[0], a).value] + rest else rest
  }

  /** The filter-then-map works variant by variant, in list order. */
  lemma {:induction false} TruthyValuesAppend(xs: seq<Variant>, ys: seq<Variant>, a: Attribute)
    ensures TruthyValues(xs + ys, a) == TruthyValues(xs, a) + TruthyValues(ys, a)
  {
    if xs == [] {
      assert xs + ys == ys;
    } else {
      var zs := xs + ys;
      assert zs[0] == xs[0] && zs[1..] == xs[1..] + ys;
      TruthyValuesAppend(xs[1..], ys, a);
      var head := if Truthy(Attr(xs[0], a)) then [Attr(xs[0], a).value] else [];
      assert TruthyValues(zs, a) == head + TruthyValues(zs[1..], a);
      assert TruthyValues(xs, a) == head + TruthyValues(xs[1..], a);
    }
  }

  /** Some variant of the list carries the truthy value `x` for attribute `a`. */
  ghost predicate Offered(variants: Option<seq<Variant>>, a: Attribute, x: string) {
    variants.Some? && x != "" && exists v :: v in variants.value && Attr(v, a) == Some(x)
  }

  /** The option buttons for attribute `a`. */
  function Options(variants: Option<seq<Variant>>, a: Attribute): (r: seq<string>)
    ensures variants.None? ==> r == []
    ensures NoDuplicates(r)
    ensures forall x :: x in r <==> Offered(variants, a, x)
  {
    match variants
    case None => []
    case Some(vs) => Distinct(TruthyValues(vs, a))
  }

  /** `sizes` on the product page. */
  function Sizes(p: Product): seq<string> {
    Options(p.variants, Size)
  }

  /** `colors` on the product page. */
  function Colors(p: Product): seq<string> {
    Options(p.variants, Color)
  }

  lemma IndexOfAppend<T>(s: seq<T>, x: T, y: T)
    requires y in s
    ensures IndexOf(s + [x], y) == IndexOf(s, y)
  {
    var k := IndexOf(s, y);
    assert (s + [x])[k] == y;
    assert forall j :: 0 <= j < k ==> (s + [x])[j] == s[j];
  }

  lemma IndexOfAppendNew<T>(s: seq<T>, x: T)
    requires x !in s
    ensures IndexOf(s + [x], x) == |s|
  {
  }

  /** Distinct lists values in the order of their first occurrence in the input. */
  lemma {:induction false} DistinctFirstOccurrenceOrder<T(!new)>(s: seq<T>, i: nat, j: nat)
    requires i < j < |Distinct(s)|
    ensures IndexOf(s, Distinct(s)[i]) < IndexOf(s, Distinct(s)[j])
  {
    var init, x := s[..|s| - 1], s[|s| - 1];
    assert s == init + [x];
    var d := Distinct(init);
    var r := Distinct(s);
    assert r[i] in d by {
      assert r == d || r == d + [x];
    }
    IndexOfAppend(init, x, r[i]);
    if x in d || j < |d| {
      assert r[j] == d[j];
      IndexOfAppend(init, x, r[j]);
      DistinctFirstOccurrenceOrder(init, i, j);
    } else {
      assert r[j] == x && x !in init;
      IndexOfAppendNew(init, x);
    }
  }

  /** The options appear in the order in which their values first occur among the
      variants that carry a truthy value for the attribute. */
  lemma OptionsFirstOccurrenceOrder(vs: seq<Variant>, a: Attribute, i: nat, j: nat)
    requires i < j < |Options(Some(vs), a)|
    ensures IndexOf(TruthyValues(vs, a), Options(Some(vs), a)[i])
          < IndexOf(TruthyValues(vs, a), Options(Some(vs), a)[j])
  {
    DistinctFirstOccurrenceOrder(TruthyValues(vs, a), i, j);
  }

  /** Variants `[{size: "M"}, {size: "L"}, {color: "black"}]` offer sizes M, L and colour black. */
  lemma SizesAndColorsExample(p: Product)
    requires p.variants == Some([Variant(Some("M"), None), Variant(Some("L"), None), Variant(None, Some("black"))])
    ensures Sizes(p) == ["M", "L"]
    ensures Colors(p) == ["black"]
  {
    var vs := p.variants.value;
    var m, l, black := Variant(Some("M"), None), Variant(Some("L"), None), Variant(None, Some("black"));
    assert vs[1..] == [l, black] && vs[1..][1..] == [black] && vs[1..][1..][1..] == [];
    assert TruthyValues([black], Size) == [];
    assert TruthyValues([l, black], Size) == ["L"];
    assert TruthyValues(vs, Size) == ["M", "L"];
    assert TruthyValues([l, black], Color) == ["black"];
    assert TruthyValues(vs, Color) == ["black"];
    assert ["M", "L"][..1] == ["M"] && ["black"][..0] == [];
    assert "L" != "M" by { assert "L"[0] != "M"[0]; }
    assert Distinct(["M"]) == ["M"] by { assert ["M"][..0] == []; }
    assert Distinct(["M", "L"]) == ["M", "L"];
  }
}
