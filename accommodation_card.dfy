/**
 * The accommodation card (src/components/accommodation-card.tsx): which picture it shows,
 * the "+N photos" badge, and what its "add to cart" button puts in the item cart.
 */
module AccommodationCard {
  import opened Wrappers
  import opened CartLines
  import opened SearchTypes
  import opened Toasts
  import opened ImageUtils
  import CartStoreNew

  /** `accommodation.images?.[0] || accommodation.image || ""`: the first non-empty candidate. */
  function MainImage(acc: Accommodation): (r: string)
    ensures acc.images.Some? && |acc.images.value| > 0 && acc.images.value[0] != "" ==> r == acc.images.value[0]
    ensures !(acc.images.Some? && |acc.images.value| > 0 && acc.images.value[0] != "") ==>
              r == (if acc.image.Some? then acc.image.value else "")
    ensures r == "" <==>
              (acc.images.None? || |acc.images.value| == 0 || acc.images.value[0] == "") &&
              (acc.image.None? || acc.image.value == "")
  {
    if acc.images.Some? && |acc.images.value| > 0 && acc.images.value[0] != "" then acc.images.value[0]
    else if acc.image.Some? && acc.image.value != "" then acc.image.value
    else ""
  }

  /** `accommodation.images?.length || 0`. */
  function ImageCount(acc: Accommodation): (n: nat)
    ensures acc.images.None? ==> n == 0
    ensures acc.images.Some? ==> n == |acc.images.value|
  {
    if acc.images.Some? then |acc.images.value| else 0
  }

  /** The "+N photos" badge: shown only with more than one image, counting the others. */
  function PhotoBadge(acc: Accommodation): (r: Option<nat>)
    ensures r.Some? <==> ImageCount(acc) > 1
    ensures r.Some? ==> r.value + 1 == ImageCount(acc) && r.value >= 1
  {
    if ImageCount(acc) > 1 then Some(ImageCount(acc) - 1) else None
  }

  /** The picture shown: the placeholder after a load error, else the safe URL of the main image. */
  function DisplayImage(acc: Accommodation, imageError: bool): (r: string)
    ensures imageError ==> r == GetPlaceholderImage()
    ensures !ImageUtils.Blank(r)
  {
    if imageError then
      var placeholder := GetPlaceholderImage();
      assert placeholder[0] == placeholder[..5][0] == 'd';
      placeholder
    else
      SafeUrlNeverBlank(Some(MainImage(acc)), true);
      GetSafeImageUrl(Some(MainImage(acc)))
  }

  /** A stay with no usable picture shows the placeholder even before any load error. */
  lemma NoPictureShowsPlaceholder(acc: Accommodation, imageError: bool)
    requires MainImage(acc) == ""
    ensures DisplayImage(acc, imageError) == Placeholder
  {
    SafeUrlOfBlank(Some(MainImage(acc)), true);
  }

  /** The cart data of a stay: one night at the per-night price, with the main image. */
  function ToCartData(acc: Accommodation): (d: CartStoreNew.CartItemData)
    ensures d.id == acc.id && d.kind == AccommodationKind && d.name == acc.name
    ensures d.price == acc.price.perNight && d.currency == acc.price.currency
    ensures d.image == MainImage(acc) && d.source == acc.source
  {
    CartStoreNew.CartItemData(acc.id, AccommodationKind, acc.name, acc.price.perNight, acc.price.currency,
                              MainImage(acc), acc.source)
  }

  /** The toast after adding a stay: no image when there is no main image, the default delay. */
  function AddedToast(acc: Accommodation): (t: ToastData)
    ensures t.title == Some("Added to cart!") && t.description == Some(acc.name)
    ensures t.image.None? <==> MainImage(acc) == ""
    ensures t.image.Some? ==> t.image.value == MainImage(acc)
    ensures AutoDismissDelay(t) == DefaultDuration
  {
    ToastData(Some("Added to cart!"), Some(acc.name), None, if MainImage(acc) == "" then None else Some(MainImage(acc)))
  }

  /**
   * `handleAddToCart`: one night of the stay is added to the item cart (raising its line
   * by one when it is already there) and the "Added to cart!" toast is shown.
   */
  method HandleAddToCart(cart: CartStoreNew.CartStore, toasts: ToastProvider, acc: Accommodation, toastId: string)
    modifies cart, toasts
    ensures cart.items == AddLine(old(cart.items), acc.id, ToCartData(acc), 1)
    ensures cart.Valid()
    ensures toasts.toasts == old(toasts.toasts) + [Toast(toastId, AddedToast(acc))]
    ensures QuantityOf(cart.items, acc.id) == old(QuantityOf(cart.items, acc.id)) + 1
  {
    ghost var before := cart.items;
    cart.AddItem(ToCartData(acc));
    var _ := toasts.AddToast(AddedToast(acc), toastId);
    AddLineQuantity(before, acc.id, ToCartData(acc), 1, acc.id + "'");
  }
}
