/**
 * The two tools the chat model may call (src/ai/tools.ts): `searchProducts`, a
 * case-insensitive keyword filter over the local catalogue cut to `limit` results, and
 * `showCart`, which only echoes its action. The catalogue (`data.json`) is a parameter.
 */
module Tools {
  import opened Text

  /** A catalogue entry (`Product` in src/ai/tools.ts); `priceEuro` is a decimal string. */
  datatype Product = Product(
    name: string,
    categories: seq<string>,
    brand: string,
    priceEuro: string,
    color: string,
    image: string,
    description: string)

  /**
   * The keyword test: the lowercased query is a substring of the lowercased name, brand,
   * one of the categories, description or color.
   */
  predicate Matches(p: Product, query: string) {
    var q := Lower(query);
    || Contains(Lower(p.name), q)
    || Contains(Lower(p.brand), q)
    || (exists c | c in p.categories :: Contains(Lower(c), q))
    || Contains(Lower(p.description), q)
    || Contains(Lower(p.color), q)
  }

  /** `products.filter(product => Matches(product, query))`. */
  function FilterMatches(catalogue: seq<Product>, query: string): (r: seq<Product>)
    ensures |r| <= |catalogue|
    ensures forall i :: 0 <= i < |r| ==> r[i] in catalogue && Matches(r[i], query)
    ensures forall i :: 0 <= i < |catalogue| && Matches(catalogue[i], query) ==> catalogue[i] in r
    decreases |catalogue|
  {
    if catalogue == [] then []
    else if Matches(catalogue[0], query) then [catalogue[0]] + FilterMatches(catalogue[1..], query)
    else FilterMatches(catalogue[1..], query)
  }

  /** The filter keeps catalogue order: it distributes over concatenation. */
  lemma {:induction false} FilterMatchesAppend(a: seq<Product>, b: seq<Product>, query: string)
    ensures FilterMatches(a + b, query) == FilterMatches(a, query) + FilterMatches(b, query)
    decreases |a|
  {
    if a == [] {
      assert a + b == b;
    } else {
      assert (a + b)[0] == a[0] && (a + b)[1..] == a[1..] + b;
      FilterMatchesAppend(a[1..], b, query);
      if Matches(a[0], query) {
        calc {
          FilterMatches(a + b, query);
          [a[0]] + FilterMatches(a[1..] + b, query);
          [a[0]] + (FilterMatches(a[1..], query) + FilterMatches(b, query));
          ([a[0]] + FilterMatches(a[1..], query)) + FilterMatches(b, query);
        }
      } else {
        calc {
          FilterMatches(a + b, query);
          FilterMatches(a[1..] + b, query);
        }
      }
    }
  }

  /** When every product matches, the filter returns the catalogue itself. */
  lemma {:induction false} FilterMatchesAll(catalogue: seq<Product>, query: string)
    requires forall i :: 0 <= i < |catalogue| ==> Matches(catalogue[i], query)
    ensures FilterMatches(catalogue, query) == catalogue
    decreases |catalogue|
  {
    if catalogue != [] {
      FilterMatchesAll(catalogue[1..], query);
    }
  }

  /** The end index `Array.prototype.slice(0, end)` uses: a negative end counts from the back. */
  function SliceEnd(len: nat, end: int): (n: nat)
    ensures n <= len
  {
    if end < 0 then (if len + end > 0 then len + end else 0)
    else if end < len then end
    else len
  }

  /** `xs.slice(0, end)`. */
  function Slice<T>(xs: seq<T>, end: int): (r: seq<T>)
    ensures r <= xs
  {
    xs[..SliceEnd(|xs|, end)]
  }

  /** What a search returns to the model: the query, the products found and their count. */
  datatype SearchResult = SearchResult(query: string, products: seq<Product>, totalFound: int)

  /**
   * `productSearchTool.execute({ query, limit = 5 })`: the matching products in catalogue
   * order, cut to `limit`, with `totalFound` counting what is returned.
   */
  function ProductSearch(catalogue: seq<Product>, query: string, limit: int := 5): (r: SearchResult)
    ensures r.query == query
    ensures r.totalFound == |r.products|
    ensures forall i :: 0 <= i < |r.products| ==> r.products[i] in catalogue && Matches(r.products[i], query)
    ensures r.products <= FilterMatches(catalogue, query)
    ensures 0 <= limit ==> |r.products| <= limit
    ensures 0 <= limit <= |FilterMatches(catalogue, query)| ==> |r.products| == limit
    ensures limit >= |FilterMatches(catalogue, query)| ==> r.products == FilterMatches(catalogue, query)
  {
    var found := Slice(FilterMatches(catalogue, query), limit);
    SearchResult(query, found, |found|)
  }

  /** An empty query matches every product, so the first `limit` catalogue entries come back. */
  lemma {:induction false} EmptyQueryReturnsCatalogue(catalogue: seq<Product>, limit: int)
    ensures ProductSearch(catalogue, "", limit).products == Slice(catalogue, limit)
  {
    forall i | 0 <= i < |catalogue| ensures Matches(catalogue[i], "") {
      assert Lower("") == "";
      assert OccursAt(Lower(catalogue[i].name), "", 0);
    }
    FilterMatchesAll(catalogue, "");
  }

  /** A negative `limit` drops that many matches from the end, as `slice` does. */
  lemma {:induction false} NegativeLimitDropsFromEnd(catalogue: seq<Product>, query: string, limit: int)
    requires limit < 0
    ensures var n := |FilterMatches(catalogue, query)|;
            |ProductSearch(catalogue, query, limit).products| == if n + limit > 0 then n + limit else 0
  {
  }

  /** What `showCartTool.execute` returns: the action and the flag that shows the cart. */
  datatype ShowCartResult = ShowCartResult(action: string, showCart: bool)

  /** `showCartTool.execute({ action = "view" })`. */
  function ShowCart(action: string := "view"): (r: ShowCartResult)
    ensures r.showCart && r.action == action
  {
    ShowCartResult(action, true)
  }

  /** Without an action the cart is shown for viewing. */
  lemma ShowCartDefault()
    ensures ShowCart() == ShowCartResult("view", true)
  {
  }
}
