/**
 * The shapes of search results (src/search/types.ts): three kinds of item joined in a
 * tagged union on their `type` field. Only the fields the model reads are kept.
 */
module SearchTypes {
  import opened Wrappers

  /** The `type` tag: `"product" | "food" | "accommodation"`. */
  datatype ItemKind = ProductKind | FoodKind | AccommodationKind

  /** `price` of a search product. */
  datatype ProductPrice = ProductPrice(amount: int, currency: string, display: string)

  /** `Product` of the search backend. */
  datatype Product = Product(
    id: string,
    name: string,
    description: string,
    price: ProductPrice,
    image: string,
    brand: string,
    color: string,
    source: string)

  /** `price` of a dish. */
  datatype FoodPrice = FoodPrice(amount: int, currency: string)

  /** `Food`. */
  datatype Food = Food(
    id: string,
    name: string,
    description: string,
    price: FoodPrice,
    image: string,
    spicyLevel: string,
    ingredients: seq<string>,
    source: string)

  /** `price` of a stay; `perNight` is what a night in the cart costs. */
  datatype StayPrice = StayPrice(amount: int, currency: string, display: string, perNight: int)

  /**
   * `Accommodation`: `image` may be absent or null (both `None`), and `images` may be
   * absent.
   */
  datatype Accommodation = Accommodation(
    id: string,
    name: string,
    description: string,
    price: StayPrice,
    image: Option<string>,
    images: Option<seq<string>>,
    source: string)

  /** `SearchItem = Product | Food | Accommodation`, told apart by `type`. */
  datatype SearchItem =
    | ProductItem(product: Product)
    | FoodItem(food: Food)
    | AccommodationItem(accommodation: Accommodation)

  /** The `type` tag of an item; each variant carries its own literal tag. */
  function Kind(item: SearchItem): (k: ItemKind)
    ensures k == ProductKind <==> item.ProductItem?
    ensures k == FoodKind <==> item.FoodItem?
    ensures k == AccommodationKind <==> item.AccommodationItem?
  {
    match item
    case ProductItem(_) => ProductKind
    case FoodItem(_) => FoodKind
    case AccommodationItem(_) => AccommodationKind
  }
}
