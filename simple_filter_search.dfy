/**
 * The keyword search kept as an alternative search backend
 * (src/search/simpleFilterSearch.ts): the same filter and cut as the `searchProducts`
 * tool, over the same catalogue.
 */
module SimpleFilterSearch {
  import opened Tools

  /** `simpleSearch({ query, limit = 5 })`. */
  function SimpleSearch(catalogue: seq<Product>, query: string, limit: int := 5): (r: SearchResult)
    ensures r.query == query && r.totalFound == |r.products|
    ensures forall i :: 0 <= i < |r.products| ==> Matches(r.products[i], query)
    ensures r.products <= FilterMatches(catalogue, query)
    ensures 0 <= limit ==> |r.products| <= limit
  {
    var found := Slice(FilterMatches(catalogue, query), limit);
    SearchResult(query, found, |found|)
  }

  /** The alternative backend answers exactly as the tool does. */
  lemma SimpleSearchIsToolSearch(catalogue: seq<Product>, query: string, limit: int)
    ensures SimpleSearch(catalogue, query, limit) == ProductSearch(catalogue, query, limit)
  {
  }

  /** An empty query returns the first `limit` catalogue entries. */
  lemma SimpleSearchEmptyQuery(catalogue: seq<Product>, limit: int)
    ensures SimpleSearch(catalogue, "", limit).products == Slice(catalogue, limit)
  {
    EmptyQueryReturnsCatalogue(catalogue, limit);
  }
}
