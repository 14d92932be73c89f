/**
 * The catalogue product card (src/components/product-card.tsx): its plus button adds the
 * product on first use and increments it afterwards, each time with a toast; its minus
 * button decrements, and is disabled while the product is not in the cart.
 */
module ProductCard {
  import opened Wrappers
  import opened Text
  import opened CartLines
  import opened Tools
  import opened Toasts
  import CartStoreSimple

  /** The toast after the first addition of a product. */
  function AddedToast(product: Product): (t: ToastData)
    ensures t.title == Some("Added to cart! \U{1F6D2}") && t.description == Some(product.name)
    ensures t.image == Some(product.image) && AutoDismissDelay(t) == 3000
  {
    ToastData(Some("Added to cart! \U{1F6D2}"), Some(product.name), Some(3000), Some(product.image))
  }

  /** The toast after a further addition, showing the new quantity. */
  function UpdatedToast(product: Product, newQuantity: int): (t: ToastData)
    ensures t.title == Some("Updated cart! \U{2728}")
    ensures t.description == Some(product.name + " (Qty: " + IntToString(newQuantity) + ")")
    ensures t.image == Some(product.image) && AutoDismissDelay(t) == 10000
  {
    ToastData(Some("Updated cart! \U{2728}"), Some(product.name + " (Qty: " + IntToString(newQuantity) + ")"),
              Some(10000), Some(product.image))
  }

  /** A name different from `name`, to instantiate the "other lines" half of the quantity lemmas. */
  function OtherName(name: string): (r: string)
    ensures r != name
  {
    name + "'"
  }

  /** One more of a line, added or bumped, raises that line's quantity and no other. */
  ghost predicate RaisedByOne(before: seq<CartStoreSimple.CartItem>, after: seq<CartStoreSimple.CartItem>, name: string) {
    QuantityOf(after, name) == QuantityOf(before, name) + 1 &&
    forall other :: other != name ==> QuantityOf(after, other) == QuantityOf(before, other)
  }

  /** Adding one of a product raises its quantity by one and leaves the others. */
  lemma AddOneRaises(items: seq<CartStoreSimple.CartItem>, product: Product)
    ensures RaisedByOne(items, AddLine(items, product.name, product, 1), product.name)
  {
    AddLineQuantity(items, product.name, product, 1, OtherName(product.name));
    forall other | other != product.name
      ensures QuantityOf(AddLine(items, product.name, product, 1), other) == QuantityOf(items, other)
    {
      AddLineQuantity(items, product.name, product, 1, other);
    }
  }

  /** Incrementing a product already in the cart raises its quantity by one and leaves the others. */
  lemma BumpOneRaises(items: seq<CartStoreSimple.CartItem>, name: string)
    requires HasId(items, name)
    ensures RaisedByOne(items, Bump(items, name, 1), name)
  {
    BumpQuantity(items, name, 1, OtherName(name));
    forall other | other != name
      ensures QuantityOf(Bump(items, name, 1), other) == QuantityOf(items, other)
    {
      BumpQuantity(items, name, 1, other);
    }
  }

  /**
   * `handleIncrement`: with none of the product in the cart, add one and show the
   * "Added" toast; otherwise increment its line and show the "Updated" toast with the new
   * quantity. Either way the product's quantity rises by exactly one and no other
   * product's quantity changes.
   */
  method HandleIncrement(cart: CartStoreSimple.CartStore, toasts: ToastProvider, product: Product, toastId: string)
    modifies cart, toasts
    ensures cart.Valid()
    ensures old(QuantityOf(cart.items, product.name)) == 0 ==>
              cart.items == AddLine(old(cart.items), product.name, product, 1) &&
              toasts.toasts == old(toasts.toasts) + [Toast(toastId, AddedToast(product))]
    ensures old(QuantityOf(cart.items, product.name)) != 0 ==>
              cart.items == Bump(old(cart.items), product.name, 1) &&
              toasts.toasts == old(toasts.toasts) + [Toast(toastId, UpdatedToast(product, old(QuantityOf(cart.items, product.name)) + 1))]
    ensures RaisedByOne(old(cart.items), cart.items, product.name)
  {
    ghost var before := cart.items;
    var cartQuantity := cart.GetItemQuantity(product.name);
    assert cartQuantity == QuantityOf(before, product.name);
    if cartQuantity == 0 {
      cart.AddItem(product, 1);
      var _ := toasts.AddToast(AddedToast(product), toastId);
      AddOneRaises(before, product);
    } else {
      assert HasId(before, product.name);
      cart.IncrementItem(product.name);
      var _ := toasts.AddToast(UpdatedToast(product, cartQuantity + 1), toastId);
      BumpOneRaises(before, product.name);
    }
  }

  /** `handleDecrement`: the product's line loses one and is dropped when it reaches zero. */
  method HandleDecrement(cart: CartStoreSimple.CartStore, product: Product)
    modifies cart
    ensures cart.items == DecrementLine(old(cart.items), product.name)
    ensures cart.Valid() && AllPositive(cart.items)
  {
    cart.DecrementItem(product.name);
  }

  /** The minus button is enabled exactly when the product is in the cart (`disabled={cartQuantity === 0}`). */
  predicate DecrementEnabled(cartQuantity: int) {
    cartQuantity != 0
  }

  /**
   * In a cart of positive lines, the minus button is disabled exactly when the product has
   * no line, and decrementing such a product would change nothing anyway.
   */
  lemma DisabledDecrementIsNoop(items: seq<CartStoreSimple.CartItem>, product: Product)
    requires AllPositive(items)
    ensures !DecrementEnabled(QuantityOf(items, product.name)) <==> !HasId(items, product.name)
    ensures !DecrementEnabled(QuantityOf(items, product.name)) ==> DecrementLine(items, product.name) == items
  {
    if HasId(items, product.name) {
      var k := CartLines.Find(items, product.name).value;
      assert QuantityOf(items, product.name) == items[k].quantity > 0;
    } else {
      DecrementLineAbsent(items, product.name);
    }
  }
}
