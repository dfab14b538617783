/** `Catalog`: the product listing page. It derives the category list, the
    filtered and sorted product list and the wishlist from the loaded
    products and the page state. `toLowerCase` and `localeCompare` are
    parameters: their Unicode and locale behaviour is not modelled. */
module Catalog {
  import opened Wrappers
  import opened Text
  import opened Seqs
  import opened StableSort
  import opened ProductSchema

  // ----- categories -----

  /** `products.map(p => p.category)`. */
  function CategoryColumn(products: seq<Product>): (cs: seq<Category>)
    ensures |cs| == |products|
    ensures forall i :: 0 <= i < |products| ==> cs[i] == products[i].category
  {
    seq(|products|, i requires 0 <= i < |products| => products[i].category)
  }

  /** `Array.from(new Set(...))`: each category of some product exactly once,
      and nothing else. */
  function Categories(products: seq<Product>): (cs: seq<Category>)
    ensures NoDup(cs)
    ensures forall c :: c in cs <==> exists i :: 0 <= i < |products| && products[i].category == c
  {
    var column := CategoryColumn(products);
    assert forall c :: c in column <==> exists i :: 0 <= i < |products| && products[i].category == c by {
      forall c ensures c in column ==> exists i :: 0 <= i < |products| && products[i].category == c {
        if c in column {
          var i :| 0 <= i < |column| && column[i] == c;
          assert products[i].category == c;
        }
      }
    }
    Distinct(column)
  }

  /** A `Set` iterates in insertion order, so the categories are listed in
      the order of their first product. */
  lemma CategoriesInFirstSeenOrder(products: seq<Product>)
    ensures var cs := Categories(products);
            var column := CategoryColumn(products);
            forall i, j :: 0 <= i < j < |cs| ==> FirstIndex(column, cs[i]) < FirstIndex(column, cs[j])
  {
    DistinctFirstOccurrenceOrder(CategoryColumn(products));
  }

  // ----- filtering -----

  /** The search condition: the lower-cased name or description contains the
      lower-cased search term. */
  predicate MatchesSearch(p: Product, term: string, lower: string -> string) {
    Contains(lower(p.name), lower(term)) || Contains(lower(p.description), lower(term))
  }

  /** The category condition: "all" or the product's category name. */
  predicate MatchesCategory(p: Product, selected: string) {
    selected == "all" || CategoryName(p.category) == selected
  }

  predicate Kept(p: Product, term: string, selected: string, lower: string -> string) {
    MatchesSearch(p, term, lower) && MatchesCategory(p, selected)
  }

  /** `products.filter(...)`: the kept products, each as often as in the
      input and in input order. */
  function Matching(products: seq<Product>, term: string, selected: string, lower: string -> string): (r: seq<Product>)
    ensures |r| <= |products|
    ensures forall p :: p in r <==> p in products && Kept(p, term, selected, lower)
    ensures forall p :: multiset(r)[p] == if Kept(p, term, selected, lower) then multiset(products)[p] else 0
  {
    if products == [] then []
    else
      var rest := Matching(products[1..], term, selected, lower);
      assert products == [products[0]] + products[1..];
      assert multiset(products) == multiset{products[0]} + multiset(products[1..]);
      if Kept(products[0], term, selected, lower) then
        assert multiset([products[0]] + rest) == multiset{products[0]} + multiset(rest);
        [products[0]] + rest
      else rest
  }

  /** Filtering keeps each part of a list in order, and a single product
      stays exactly when it is kept. */
  lemma {:induction false} MatchingConcat(a: seq<Product>, b: seq<Product>, term: string, selected: string,
                                          lower: string -> string)
    ensures Matching(a + b, term, selected, lower)
         == Matching(a, term, selected, lower) + Matching(b, term, selected, lower)
  {
    if a == [] {
      assert a + b == b;
    } else {
      assert (a + b)[0] == a[0] && (a + b)[1..] == a[1..] + b;
      MatchingConcat(a[1..], b, term, selected, lower);
    }
  }

  lemma MatchingOne(p: Product, term: string, selected: string, lower: string -> string)
    ensures Matching([p], term, selected, lower) == if Kept(p, term, selected, lower) then [p] else []
  {
  }

  /** With a lower-casing that maps "" to "", an empty search and the "all"
      category keep every product, in order. */
  lemma {:induction false} EmptySearchKeepsAll(products: seq<Product>, lower: string -> string)
    requires lower("") == ""
    ensures Matching(products, "", "all", lower) == products
  {
    if products != [] {
      ContainsEmpty(lower(products[0].name));
      EmptySearchKeepsAll(products[1..], lower);
    }
  }

  // ----- sorting -----

  /** The "price-low" comparator. */
  function PriceAscending(a: Product, b: Product): real { a.price - b.price }

  /** The "price-high" comparator. */
  function PriceDescending(a: Product, b: Product): real { b.price - a.price }

  /** The comparator for a sort key: "price-low" puts cheaper first,
      "price-high" dearer first, "name" follows `localeCompare` of the names,
      and an unknown key compares everything equal. */
  function Comparator(sortBy: string, localeCompare: (string, string) -> int): (r: (Product, Product) -> real)
    ensures sortBy == "price-low" ==> forall a, b :: Leq(r, a, b) <==> a.price <= b.price
    ensures sortBy == "price-high" ==> forall a, b :: Leq(r, a, b) <==> b.price <= a.price
    ensures sortBy == "name" ==> forall a, b :: Leq(r, a, b) <==> localeCompare(a.name, b.name) <= 0
    ensures sortBy !in {"price-low", "price-high", "name"} ==> forall a, b :: Leq(r, a, b)
  {
    if sortBy == "price-low" then PriceAscending
    else if sortBy == "price-high" then PriceDescending
    else if sortBy == "name" then (a: Product, b: Product) => localeCompare(a.name, b.name) as real
    else (a: Product, b: Product) => 0.0
  }

  /** A `localeCompare` that orders strings consistently: every pair is
      comparable and the order is transitive. */
  ghost predicate ConsistentCompare(localeCompare: (string, string) -> int) {
    && (forall a, b :: localeCompare(a, b) <= 0 || localeCompare(b, a) <= 0)
    && (forall a, b, c :: localeCompare(a, b) <= 0 && localeCompare(b, c) <= 0 ==> localeCompare(a, c) <= 0)
  }

  /** `filteredProducts`: the kept products, reordered by the stable sort. */
  function FilteredProducts(products: seq<Product>, term: string, selected: string, sortBy: string,
                            lower: string -> string, localeCompare: (string, string) -> int): (r: seq<Product>)
    ensures |r| <= |products|
    ensures multiset(r) == multiset(Matching(products, term, selected, lower))
    ensures forall p :: p in r <==> p in products && Kept(p, term, selected, lower)
  {
    var kept := Matching(products, term, selected, lower);
    var r := Sort(Comparator(sortBy, localeCompare), kept);
    assert forall p :: p in r <==> p in multiset(kept);
    r
  }

  /** Every sort key gives a consistent comparator when `localeCompare` is
      consistent. */
  lemma ComparatorConsistent(sortBy: string, localeCompare: (string, string) -> int)
    requires ConsistentCompare(localeCompare)
    ensures Consistent(Comparator(sortBy, localeCompare))
  {
    var cmp := Comparator(sortBy, localeCompare);
    if sortBy == "price-low" {
      assert forall a, b :: Leq(cmp, a, b) <==> a.price <= b.price;
    } else if sortBy == "price-high" {
      assert forall a, b :: Leq(cmp, a, b) <==> b.price <= a.price;
    } else if sortBy == "name" {
      assert forall a, b :: Leq(cmp, a, b) <==> localeCompare(a.name, b.name) <= 0;
    } else {
      assert forall a, b :: Leq(cmp, a, b);
    }
  }

  /** "price-low" lists prices in non-decreasing order. */
  lemma PriceLowAscending(products: seq<Product>, term: string, selected: string,
                          lower: string -> string, localeCompare: (string, string) -> int)
    ensures var r := FilteredProducts(products, term, selected, "price-low", lower, localeCompare);
            forall i, j :: 0 <= i < j < |r| ==> r[i].price <= r[j].price
  {
    SortSorted(PriceAscending, Matching(products, term, selected, lower));
  }

  /** "price-high" lists prices in non-increasing order. */
  lemma PriceHighDescending(products: seq<Product>, term: string, selected: string,
                            lower: string -> string, localeCompare: (string, string) -> int)
    ensures var r := FilteredProducts(products, term, selected, "price-high", lower, localeCompare);
            forall i, j :: 0 <= i < j < |r| ==> r[i].price >= r[j].price
  {
    SortSorted(PriceDescending, Matching(products, term, selected, lower));
  }

  /** "name" lists products in `localeCompare` order of their names. */
  lemma NameOrdered(products: seq<Product>, term: string, selected: string,
                    lower: string -> string, localeCompare: (string, string) -> int)
    requires ConsistentCompare(localeCompare)
    ensures var r := FilteredProducts(products, term, selected, "name", lower, localeCompare);
            forall i, j :: 0 <= i < j < |r| ==> localeCompare(r[i].name, r[j].name) <= 0
  {
    ComparatorConsistent("name", localeCompare);
    SortSorted(Comparator("name", localeCompare), Matching(products, term, selected, lower));
  }

  /** Products the comparator ties keep their input order. */
  lemma TiesKeepInputOrder(products: seq<Product>, term: string, selected: string, sortBy: string,
                           lower: string -> string, localeCompare: (string, string) -> int, k: Product)
    requires ConsistentCompare(localeCompare)
    ensures var cmp := Comparator(sortBy, localeCompare);
            TiesOf(cmp, FilteredProducts(products, term, selected, sortBy, lower, localeCompare), k)
              == TiesOf(cmp, Matching(products, term, selected, lower), k)
  {
    ComparatorConsistent(sortBy, localeCompare);
    SortStable(Comparator(sortBy, localeCompare), Matching(products, term, selected, lower), k);
  }

  /** The products of `s` priced `price`, in order. */
  function PricedAt(s: seq<Product>, price: real): (r: seq<Product>)
    ensures forall p :: p in r <==> p in s && p.price == price
  {
    if s == [] then []
    else PricedAt(s[..|s| - 1], price) + (if s[|s| - 1].price == price then [s[|s| - 1]] else [])
  }

  lemma {:induction false} PriceTiesArePricedAt(s: seq<Product>, k: Product)
    ensures TiesOf(PriceAscending, s, k) == PricedAt(s, k.price)
  {
    if s != [] {
      PriceTiesArePricedAt(s[..|s| - 1], k);
    }
  }

  /** Under "price-low", products of equal price appear in input order. */
  lemma EqualPricesKeepInputOrder(products: seq<Product>, term: string, selected: string,
                                  lower: string -> string, localeCompare: (string, string) -> int, price: real)
    ensures PricedAt(FilteredProducts(products, term, selected, "price-low", lower, localeCompare), price)
              == PricedAt(Matching(products, term, selected, lower), price)
  {
    var k := Product("", "", "", price, Cake, [], None, None, None, None, None);
    var kept := Matching(products, term, selected, lower);
    SortStable(PriceAscending, kept, k);
    PriceTiesArePricedAt(kept, k);
    PriceTiesArePricedAt(Sort(PriceAscending, kept), k);
  }

  /** An unknown sort key leaves the kept products in input order. */
  lemma UnknownKeyKeepsInputOrder(products: seq<Product>, term: string, selected: string, sortBy: string,
                                  lower: string -> string, localeCompare: (string, string) -> int)
    requires sortBy !in ["price-low", "price-high", "name"]
    ensures FilteredProducts(products, term, selected, sortBy, lower, localeCompare)
              == Matching(products, term, selected, lower)
  {
    SortAllTie(Comparator(sortBy, localeCompare), Matching(products, term, selected, lower));
  }

  /** A search for "Red" sorted by "price-low", with a lower-casing that
      behaves as ASCII lower-casing on the strings involved: the first
      product matches on its name, the third on its description, the second
      on neither, and the cheaper match comes first. */
  lemma SearchAndSortExample(lower: string -> string, localeCompare: (string, string) -> int)
    requires ExampleLowerCasing(lower)
    ensures FilteredProducts([Velvet, Biscotti, Sponge], "Red", "all", "price-low", lower, localeCompare) == [Sponge, Velvet]
  {
    ExampleMatches(lower);
    ExampleSort();
  }

  const Velvet := Product("1", "Red Velvet", "Cocoa sponge", 500.0, Cake, ["v.png"], None, None, None, None, None)
  const Biscotti := Product("2", "Almond Cookie", "Toasted nuts", 300.0, Cookie, ["c.png"], None, None, None, None, None)
  const Sponge := Product("3", "Strawberry Sponge", "Layered with red berries", 450.0, Cake, ["s.png"], None, None, None, None, None)

  predicate ExampleLowerCasing(lower: string -> string) {
    && lower("Red") == "red"
    && lower("Red Velvet") == "red velvet" && lower("Cocoa sponge") == "cocoa sponge"
    && lower("Almond Cookie") == "almond cookie" && lower("Toasted nuts") == "toasted nuts"
    && lower("Strawberry Sponge") == "strawberry sponge"
    && lower("Layered with red berries") == "layered with red berries"
  }

  lemma ExampleKept(lower: string -> string)
    requires ExampleLowerCasing(lower)
    ensures Kept(Velvet, "Red", "all", lower) && !Kept(Biscotti, "Red", "all", lower) && Kept(Sponge, "Red", "all", lower)
  {
    assert OccursAt("red velvet", "red", 0);
    assert OccursAt("layered with red berries", "red", 13);
    MissingFirstChar("almond cookie", "red");
    MissingFirstChar("toasted nuts", "red");
  }

  lemma ExampleMatches(lower: string -> string)
    requires ExampleLowerCasing(lower)
    ensures Matching([Velvet, Biscotti, Sponge], "Red", "all", lower) == [Velvet, Sponge]
  {
    ExampleKept(lower);
    var products := [Velvet, Biscotti, Sponge];
    assert products[1..] == [Biscotti, Sponge] && products[1..][1..] == [Sponge] && [Sponge][1..] == [];
  }

  lemma ExampleSort()
    ensures Sort(PriceAscending, [Velvet, Sponge]) == [Sponge, Velvet]
  {
    var kept := [Velvet, Sponge];
    assert kept[..1] == [Velvet] && [Velvet][..0] == [];
    assert Sort(PriceAscending, [Velvet]) == [Velvet];
    assert !Leq(PriceAscending, Velvet, Sponge);
    assert Insert(PriceAscending, Sponge, [Velvet]) == [Sponge, Velvet];
  }

  // ----- wishlist -----

  /** `toggleWishlist(id)`: a listed id is removed (every copy), an unlisted
      one is appended. */
  function ToggleWishlist(wishlist: seq<string>, id: string): (r: seq<string>)
    ensures id in r <==> id !in wishlist
    ensures forall other :: other != id ==> (other in r <==> other in wishlist)
    ensures NoDup(wishlist) ==> NoDup(r)
    ensures id !in wishlist ==> r == wishlist + [id]
  {
    if id in wishlist then
      RemoveKeepsNoDup(wishlist, id);
      RemoveAll(wishlist, id)
    else wishlist + [id]
  }

  lemma RemoveKeepsNoDup(s: seq<string>, x: string)
    ensures NoDup(s) ==> NoDup(RemoveAll(s, x))
  {
    if NoDup(s) {
      RemoveAllNoDup(s, x);
    }
  }

  /** Toggling twice restores the set of listed ids, and restores the list
      itself when the id was not listed. */
  lemma ToggleTwice(wishlist: seq<string>, id: string)
    ensures forall x :: x in ToggleWishlist(ToggleWishlist(wishlist, id), id) <==> x in wishlist
    ensures id !in wishlist ==> ToggleWishlist(ToggleWishlist(wishlist, id), id) == wishlist
  {
    if id !in wishlist {
      var once := wishlist + [id];
      assert RemoveAll(once, id) == wishlist by { RemoveAllLast(wishlist, id); }
    }
  }

  lemma {:induction false} RemoveAllLast(s: seq<string>, x: string)
    requires x !in s
    ensures RemoveAll(s + [x], x) == s
  {
    if s == [] {
      assert [] + [x] == [x];
      assert [x][1..] == [];
    } else {
      assert (s + [x])[0] == s[0] && (s + [x])[1..] == s[1..] + [x];
      RemoveAllLast(s[1..], x);
    }
  }
}
