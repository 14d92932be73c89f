/**
 * The generic cart (src/store/cart-store-new.ts): lines carry the item data of a product,
 * a dish or a stay, keyed by the item's own id, with prices in the smallest currency unit.
 * Every mutation recomputes `totalPrice` from the lines. Persistence to local storage is a
 * parameter of `Rehydrate`.
 */
module CartStoreNew {
  import opened CartLines
  import opened SearchTypes

  /** `CartItemData`: what a card hands to `addItem`. */
  datatype CartItemData = CartItemData(
    id: string,
    kind: ItemKind,
    name: string,
    price: int,
    currency: string,
    image: string,
    source: string)

  /** `CartItem`: the item data spread together with its quantity. */
  type CartItem = Line<CartItemData>

  /** The unit price a line is charged at. */
  function UnitPrice(d: CartItemData): int {
    d.price
  }

  /** The key a line of this store is filed under: the id of the data it carries. */
  function DataId(d: CartItemData): string {
    d.id
  }

  /** Every line is keyed by the id of the data it carries. */
  predicate KeyedByDataId(items: seq<CartItem>) {
    KeyedBy(items, DataId)
  }

  class CartStore {
    var items: seq<CartItem>
    var totalPrice: int

    /** The stored total is the sum of price times quantity over the lines. */
    ghost predicate Valid()
      reads this
    {
      totalPrice == Total(items, UnitPrice)
    }

    /** The initial state: no lines and a total of 0. */
    constructor ()
      ensures items == [] && totalPrice == 0
      ensures Valid()
    {
      items := [];
      totalPrice := 0;
    }

    /** `updateTotalPrice`: the sum over the lines replaces the stored total. */
    method UpdateTotalPrice()
      modifies this`totalPrice
      ensures totalPrice == Total(items, UnitPrice)
    {
      var sum := 0;
      var i := 0;
      while i < |items|
        invariant 0 <= i <= |items|
        invariant sum == Total(items[..i], UnitPrice)
      {
        assert items[..i + 1] == items[..i] + [items[i]];
        TotalSnoc(items[..i], items[i], UnitPrice);
        sum := sum + Amount(items[i], UnitPrice);
        i := i + 1;
      }
      assert items[..i] == items;
      totalPrice := sum;
    }

    /**
     * `addItem(itemData, quantity = 1)`: a line with the same id gains `quantity`;
     * otherwise a new line is appended at the end.
     */
    method AddItem(itemData: CartItemData, quantity: int := 1)
      modifies this
      ensures items == AddLine(old(items), itemData.id, itemData, quantity)
      ensures Valid()
      ensures old(UniqueIds(items)) ==> UniqueIds(items)
      ensures old(AllPositive(items)) && quantity > 0 ==> AllPositive(items)
      ensures old(KeyedByDataId(items)) ==> KeyedByDataId(items)
    {
      ghost var before := items;
      var existing := Find(items, itemData.id);
      if existing.Some? {
        items := Bump(items, itemData.id, quantity);
      } else {
        items := items + [Line(itemData.id, itemData, quantity)];
      }
      UpdateTotalPrice();
      if UniqueIds(before) {
        AddLineUnique(before, itemData.id, itemData, quantity);
      }
      if AllPositive(before) && quantity > 0 {
        AddLinePositive(before, itemData.id, itemData, quantity);
      }
    }

    /** `incrementItem(id)`: the line with that id gains one; an unknown id changes nothing. */
    method IncrementItem(id: string)
      modifies this
      ensures items == Bump(old(items), id, 1)
      ensures Valid()
      ensures old(UniqueIds(items)) ==> UniqueIds(items)
      ensures old(AllPositive(items)) ==> AllPositive(items)
      ensures old(KeyedByDataId(items)) ==> KeyedByDataId(items)
      ensures !old(HasId(items, id)) ==> items == old(items)
    {
      ghost var before := items;
      items := Bump(items, id, 1);
      UpdateTotalPrice();
      if UniqueIds(before) {
        BumpUnique(before, id, 1);
      }
      if !HasId(before, id) {
        IncrementAbsent(before, id);
      }
      if AllPositive(before) {
        IncrementPositive(before, id);
      }
      if KeyedByDataId(before) {
        BumpKeyedBy(before, id, 1, DataId);
      }
    }

    /**
     * `decrementItem(id)`: the line with that id loses one, and every line left at zero
     * or below is dropped.
     */
    method DecrementItem(id: string)
      modifies this
      ensures items == DecrementLine(old(items), id)
      ensures Valid()
      ensures AllPositive(items)
      ensures old(UniqueIds(items)) ==> UniqueIds(items)
      ensures old(KeyedByDataId(items)) ==> KeyedByDataId(items)
    {
      ghost var before := items;
      items := KeepPositive(MapDecrement(items, id));
      UpdateTotalPrice();
      if UniqueIds(before) {
        DecrementLineUnique(before, id);
      }
      if KeyedByDataId(before) {
        DecrementLineKeyedBy(before, id, DataId);
      }
    }

    /** `removeItem(id)`: every line with that id is dropped. */
    method RemoveItem(id: string)
      modifies this
      ensures items == RemoveLine(old(items), id)
      ensures Valid()
      ensures !HasId(items, id)
      ensures old(UniqueIds(items)) ==> UniqueIds(items)
      ensures old(AllPositive(items)) ==> AllPositive(items)
      ensures old(KeyedByDataId(items)) ==> KeyedByDataId(items)
    {
      ghost var before := items;
      items := RemoveLine(items, id);
      UpdateTotalPrice();
      if UniqueIds(before) {
        RemoveLineUnique(before, id);
      }
      if AllPositive(before) {
        RemovePositive(before, id);
      }
      if KeyedByDataId(before) {
        RemoveLineKeyedBy(before, id, DataId);
      }
    }

    /** `clearCart`: no lines and a total of 0. */
    method ClearCart()
      modifies this
      ensures items == [] && totalPrice == 0
      ensures Valid()
    {
      items := [];
      totalPrice := 0;
    }

    /** `getItemQuantity(id)`: the quantity on the first line with that id, 0 when there is none. */
    function GetItemQuantity(id: string): (q: int)
      reads this
      ensures !HasId(items, id) ==> q == 0
      ensures forall k :: 0 <= k < |items| && items[k].id == id && (forall j :: 0 <= j < k ==> items[j].id != id) ==>
                q == items[k].quantity
    {
      QuantityOf(items, id)
    }

    /**
     * The rehydration hook: the lines read back from storage replace the state, and the
     * total is recomputed from them rather than trusted from storage.
     */
    method Rehydrate(storedItems: seq<CartItem>, storedTotal: int)
      modifies this
      ensures items == storedItems
      ensures Valid()
    {
      items := storedItems;
      totalPrice := storedTotal;
      UpdateTotalPrice();
    }
  }

  /** Adding an item already in a duplicate-free cart raises its quantity and the total by that many units. */
  lemma {:induction false} AddExistingRaisesTotal(items: seq<CartItem>, itemData: CartItemData, quantity: int, k: nat)
    requires UniqueIds(items) && k < |items| && items[k].id == itemData.id
    ensures var r := AddLine(items, itemData.id, itemData, quantity);
            QuantityOf(r, itemData.id) == items[k].quantity + quantity &&
            Total(r, UnitPrice) == Total(items, UnitPrice) + items[k].item.price * quantity
  {
    AddLineExisting(items, itemData.id, itemData, quantity, k, UnitPrice);
    var r := AddLine(items, itemData.id, itemData, quantity);
    AddLineUnique(items, itemData.id, itemData, quantity);
    assert r[k].id == itemData.id && r[k].quantity == items[k].quantity + quantity;
  }

  /** Adding a new item appends one line and raises the total by its price times the quantity. */
  lemma {:induction false} AddNewRaisesTotal(items: seq<CartItem>, itemData: CartItemData, quantity: int)
    requires !HasId(items, itemData.id)
    ensures var r := AddLine(items, itemData.id, itemData, quantity);
            |r| == |items| + 1 && r[|items|].quantity == quantity &&
            Total(r, UnitPrice) == Total(items, UnitPrice) + itemData.price * quantity
  {
    AddLineNew(items, itemData.id, itemData, quantity, UnitPrice);
  }

  /** Decrementing a line of a duplicate-free, positive cart lowers the total by one unit price. */
  lemma {:induction false} DecrementLowersTotal(items: seq<CartItem>, id: string, k: nat)
    requires AllPositive(items) && UniqueIds(items) && k < |items| && items[k].id == id
    ensures Total(DecrementLine(items, id), UnitPrice) == Total(items, UnitPrice) - items[k].item.price
    ensures QuantityOf(DecrementLine(items, id), id) == items[k].quantity - 1
  {
    DecrementLineTotal(items, id, k, UnitPrice);
    DecrementLineQuantity(items, id, k);
  }
}
