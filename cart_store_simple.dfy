/**
 * The catalogue cart (src/store/cart-store-simple.ts): lines hold a catalogue `Product`,
 * keyed by the product's name. The unit price is `parseFloat(product.priceEuro)`, which
 * the store receives as a function.
 */
module CartStoreSimple {
  import opened CartLines
  import opened Tools

  /** `CartItem`: `{ product, quantity, id }` with `id` the product name. */
  type CartItem = Line<Product>

  /** The key a line of this store is filed under: the name of the product it holds. */
  function ProductName(p: Product): string {
    p.name
  }

  /** Every line is keyed by the name of the product it holds. */
  predicate KeyedByName(items: seq<CartItem>) {
    KeyedBy(items, ProductName)
  }

  class CartStore {
    var items: seq<CartItem>
    var totalPrice: int
    /** The euro price read from a product's `priceEuro` string. */
    const priceOf: Product -> int

    /** The stored total is the sum of price times quantity over the lines. */
    ghost predicate Valid()
      reads this
    {
      totalPrice == Total(items, priceOf)
    }

    /** The initial state: no lines and a total of 0. */
    constructor (priceOf: Product -> int)
      ensures this.priceOf == priceOf
      ensures items == [] && totalPrice == 0
      ensures Valid()
    {
      this.priceOf := priceOf;
      items := [];
      totalPrice := 0;
    }

    /** `updateTotalPrice`: the sum over the lines replaces the stored total. */
    method UpdateTotalPrice()
      modifies this`totalPrice
      ensures totalPrice == Total(items, priceOf)
    {
      var sum := 0;
      var i := 0;
      while i < |items|
        invariant 0 <= i <= |items|
        invariant sum == Total(items[..i], priceOf)
      {
        assert items[..i + 1] == items[..i] + [items[i]];
        TotalSnoc(items[..i], items[i], priceOf);
        sum := sum + Amount(items[i], priceOf);
        i := i + 1;
      }
      assert items[..i] == items;
      totalPrice := sum;
    }

    /**
     * `addItem(product, quantity)`: the line keyed by the product's name gains `quantity`;
     * otherwise a new line is appended at the end.
     */
    method AddItem(product: Product, quantity: int)
      modifies this
      ensures items == AddLine(old(items), product.name, product, quantity)
      ensures Valid()
      ensures old(UniqueIds(items)) ==> UniqueIds(items)
      ensures old(AllPositive(items)) && quantity > 0 ==> AllPositive(items)
      ensures old(KeyedByName(items)) ==> KeyedByName(items)
    {
      ghost var before := items;
      var id := product.name;
      var existing := Find(items, id);
      if existing.Some? {
        items := Bump(items, id, quantity);
      } else {
        items := items + [Line(id, product, quantity)];
      }
      UpdateTotalPrice();
      if UniqueIds(before) {
        AddLineUnique(before, id, product, quantity);
      }
      if AllPositive(before) && quantity > 0 {
        AddLinePositive(before, id, product, quantity);
      }
    }

    /** `incrementItem(id)`: the line with that id gains one; an unknown id changes nothing. */
    method IncrementItem(id: string)
      modifies this
      ensures items == Bump(old(items), id, 1)
      ensures Valid()
      ensures old(UniqueIds(items)) ==> UniqueIds(items)
      ensures old(AllPositive(items)) ==> AllPositive(items)
      ensures old(KeyedByName(items)) ==> KeyedByName(items)
      ensures !old(HasId(items, id)) ==> items == old(items)
    {
      ghost var before := items;
      items := Bump(items, id, 1);
      UpdateTotalPrice();
      if UniqueIds(before) {
        BumpUnique(before, id, 1);
      }
      if !HasId(before, id) {
        IncrementAbsent(before, id);
      }
      if AllPositive(before) {
        IncrementPositive(before, id);
      }
      if KeyedByName(before) {
        BumpKeyedBy(before, id, 1, ProductName);
      }
    }

    /**
     * `decrementItem(id)`: the line with that id loses one, and every line left at zero
     * or below is dropped.
     */
    method DecrementItem(id: string)
      modifies this
      ensures items == DecrementLine(old(items), id)
      ensures Valid()
      ensures AllPositive(items)
      ensures old(UniqueIds(items)) ==> UniqueIds(items)
      ensures old(KeyedByName(items)) ==> KeyedByName(items)
    {
      ghost var before := items;
      items := KeepPositive(MapDecrement(items, id));
      UpdateTotalPrice();
      if UniqueIds(before) {
        DecrementLineUnique(before, id);
      }
      if KeyedByName(before) {
        DecrementLineKeyedBy(before, id, ProductName);
      }
    }

    /** `removeItem(id)`: every line with that id is dropped. */
    method RemoveItem(id: string)
      modifies this
      ensures items == RemoveLine(old(items), id)
      ensures Valid()
      ensures !HasId(items, id)
      ensures old(UniqueIds(items)) ==> UniqueIds(items)
      ensures old(AllPositive(items)) ==> AllPositive(items)
      ensures old(KeyedByName(items)) ==> KeyedByName(items)
    {
      ghost var before := items;
      items := RemoveLine(items, id);
      UpdateTotalPrice();
      if UniqueIds(before) {
        RemoveLineUnique(before, id);
      }
      if AllPositive(before) {
        RemovePositive(before, id);
      }
      if KeyedByName(before) {
        RemoveLineKeyedBy(before, id, ProductName);
      }
    }

    /** `clearCart`: no lines and a total of 0. */
    method ClearCart()
      modifies this
      ensures items == [] && totalPrice == 0
      ensures Valid()
    {
      items := [];
      totalPrice := 0;
    }

    /** `getItemQuantity(id)`: the quantity on the first line with that id, 0 when there is none. */
    function GetItemQuantity(id: string): (q: int)
      reads this
      ensures !HasId(items, id) ==> q == 0
      ensures forall k :: 0 <= k < |items| && items[k].id == id && (forall j :: 0 <= j < k ==> items[j].id != id) ==>
                q == items[k].quantity
    {
      QuantityOf(items, id)
    }

    /** The rehydration hook: stored lines replace the state and the total is recomputed. */
    method Rehydrate(storedItems: seq<CartItem>, storedTotal: int)
      modifies this
      ensures items == storedItems
      ensures Valid()
    {
      items := storedItems;
      totalPrice := storedTotal;
      UpdateTotalPrice();
    }
  }

  /**
   * Two products with the same name share one line: adding the second raises the
   * quantity but keeps the product data of the first.
   */
  lemma {:induction false} SameNameSharesLine(items: seq<CartItem>, product: Product, quantity: int, k: nat)
    requires UniqueIds(items) && k < |items| && items[k].id == product.name
    ensures var r := AddLine(items, product.name, product, quantity);
            |r| == |items| && r[k].item == items[k].item && r[k].quantity == items[k].quantity + quantity
  {
    AddLineExisting(items, product.name, product, quantity, k, p => 0);
  }
}
