/**
 * The search-result list (src/components/item-list.tsx): the "no results" panel for an
 * empty list, otherwise a header with the count and a label naming the kind of item, and
 * one card per item chosen by the item's kind.
 */
module ItemList {
  import opened SearchTypes

  /** `new Set(items.map(item => item.type))`. */
  function KindsOf(items: seq<SearchItem>): (kinds: set<ItemKind>)
    ensures forall i :: 0 <= i < |items| ==> Kind(items[i]) in kinds
    ensures forall k :: k in kinds ==> exists i :: 0 <= i < |items| && Kind(items[i]) == k
  {
    set i | 0 <= i < |items| :: Kind(items[i])
  }

  /** `getItemTypeLabel()`: the kind's plural when all items share one kind, else "items". */
  function GetItemTypeLabel(items: seq<SearchItem>): string {
    if |items| == 0 then "items"
    else
      var kinds := KindsOf(items);
      if |kinds| == 1 then
        if ProductKind in kinds then "products"
        else if FoodKind in kinds then "food items"
        else "accommodations"
      else "items"
  }

  /** A one-element set is the singleton of its element. */
  lemma SingletonSet(s: set<ItemKind>, x: ItemKind)
    requires |s| == 1 && x in s
    ensures s == {x}
  {
    assert |s - {x}| == 0;
  }

  /** All items are of kind `k`, and there is at least one, exactly when their kinds are `{k}`. */
  lemma KindsAreOne(items: seq<SearchItem>, k: ItemKind)
    ensures (|items| > 0 && forall i :: 0 <= i < |items| ==> Kind(items[i]) == k) <==> KindsOf(items) == {k}
  {
    var kinds := KindsOf(items);
    if |items| > 0 && forall i :: 0 <= i < |items| ==> Kind(items[i]) == k {
      assert Kind(items[0]) in kinds;
    }
    if kinds == {k} {
      assert k in kinds;
    }
  }

  /** The label names one kind exactly when every item (of at least one) has that kind. */
  lemma {:induction false} LabelNamesCommonKind(items: seq<SearchItem>)
    ensures GetItemTypeLabel(items) == "products" <==>
              |items| > 0 && forall i :: 0 <= i < |items| ==> items[i].ProductItem?
    ensures GetItemTypeLabel(items) == "food items" <==>
              |items| > 0 && forall i :: 0 <= i < |items| ==> items[i].FoodItem?
    ensures GetItemTypeLabel(items) == "accommodations" <==>
              |items| > 0 && forall i :: 0 <= i < |items| ==> items[i].AccommodationItem?
  {
    var kinds := KindsOf(items);
    KindsAreOne(items, ProductKind);
    KindsAreOne(items, FoodKind);
    KindsAreOne(items, AccommodationKind);
    if |items| > 0 && |kinds| == 1 {
      var k := Kind(items[0]);
      SingletonSet(kinds, k);
    }
  }

  /** Mixed kinds, or no items at all, give the generic label. */
  lemma MixedKindsLabel(items: seq<SearchItem>, i: nat, j: nat)
    requires i < |items| && j < |items| && Kind(items[i]) != Kind(items[j])
    ensures GetItemTypeLabel(items) == "items"
  {
    var kinds := KindsOf(items);
    if |kinds| == 1 {
      SingletonSet(kinds, Kind(items[i]));
    }
  }

  /** The card rendered for one item, keyed by the item's id. */
  datatype Card =
    | ProductCardNew(product: Product)
    | FoodCard(food: Food)
    | AccommodationCard(accommodation: Accommodation)

  /** The per-item dispatch on `item.type`. */
  function CardFor(item: SearchItem): (c: Card)
    ensures c.ProductCardNew? <==> Kind(item) == ProductKind
    ensures c.FoodCard? <==> Kind(item) == FoodKind
    ensures c.AccommodationCard? <==> Kind(item) == AccommodationKind
  {
    match item
    case ProductItem(p) => ProductCardNew(p)
    case FoodItem(f) => FoodCard(f)
    case AccommodationItem(a) => AccommodationCard(a)
  }

  /** What the list shows. */
  datatype ItemListView =
    | NoResults(query: string)
    | Results(query: string, totalFound: int, kindLabel: string, cards: seq<Card>)

  /**
   * `ItemList`: an empty list shows the "no results" panel naming the query; otherwise the
   * query, the reported total, the label and one card per item, in order, each card
   * holding its own item.
   */
  function Render(query: string, items: seq<SearchItem>, totalFound: int): (v: ItemListView)
    ensures v.NoResults? <==> |items| == 0
    ensures v.query == query
    ensures v.Results? ==> v.totalFound == totalFound && v.kindLabel == GetItemTypeLabel(items)
    ensures v.Results? ==> |v.cards| == |items|
    ensures v.Results? ==> forall i :: 0 <= i < |items| ==>
              (v.cards[i].ProductCardNew? ==> items[i] == ProductItem(v.cards[i].product)) &&
              (v.cards[i].FoodCard? ==> items[i] == FoodItem(v.cards[i].food)) &&
              (v.cards[i].AccommodationCard? ==> items[i] == AccommodationItem(v.cards[i].accommodation))
  {
    if |items| == 0 then NoResults(query)
    else Results(query, totalFound, GetItemTypeLabel(items), seq(|items|, i requires 0 <= i < |items| => CardFor(items[i])))
  }
}
