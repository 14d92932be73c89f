# Qualiwo chat-shopping front end, modelled in Dafny

The application is a chat page where an assistant searches a product catalogue, then
writes replies that embed a product list and a recommended product. Cards let the user
fill a cart, toasts confirm each action, and a completed payment empties the cart. This
project models the logic under that front end:

- **Two cart stores.**
  - `CartStoreNew`: lines keyed by the item id, priced in the smallest currency unit.
  - `CartStoreSimple`: lines keyed by the product name, priced by a per-product value.
  - Both are classes whose `items` sequence and `totalPrice` field every method
    reassigns. `UpdateTotalPrice` is the `reduce` loop.
  - Both are built on a shared line algebra (`CartLines`): `find`, the `map` bump, the
    `map`+`filter` decrement, the `filter` remove and the add rule.
  - Every mutator is proved to keep `totalPrice` equal to the sum of price times
    quantity (`Valid`).
  - Each mutator is tied to its specification function. Adding, incrementing,
    decrementing and removing keep ids unique and every line keyed by its item (id or
    name). Incrementing, decrementing and removing keep quantities positive, and so does
    adding a positive quantity. Decrementing leaves only positive lines in any case.
- **The card handlers.**
  - `ProductCard.HandleIncrement`/`HandleDecrement`: the product card's plus and minus
    buttons.
  - `AccommodationCard.HandleAddToCart`: turns a stay into cart data.
  - The accommodation card also chooses the main image, the displayed picture and the
    photo badge.
- **The chat page** (`ChatPage`).
  - Reply text is joined from the message's text parts.
  - It is segmented on the `|||PRODUCT_LIST|||` separator and the
    `|||RECOMMENDED_PRODUCT:<digits>|||` marker. That regex is modelled as a leftmost
    marker with a lazy middle and a greedy digit run.
  - The recommended product is picked from the first finished search.
  - The once-per-message payment rule (`PaymentWatcher`) empties the cart and shows a
    toast.
- **Image URLs** (`ImageUtils`).
  - Google Drive links are rewritten to the direct-download form. The three regular
    expressions are modelled as leftmost matches with a greedy capture, and the last
    matching pattern wins.
  - `getSafeImageUrl` chooses between the placeholder, the image proxy and the link
    itself. Blank means what JavaScript's `trim` removes.
  - The proxy link uses `encodeURIComponent` (`UriEncoding`), written out as UTF-8
    plus `%XX` following section 15.1.3.4 of ECMA-262. It is proved to be inverted by
    percent-decoding.
- **Catalogue search** (`Tools`, `SimpleFilterSearch`).
  - The case-insensitive five-field substring filter, followed by `slice(0, limit)`,
    including JavaScript's negative `limit`.
  - The show-cart tool's defaults.
- **Small list rules.**
  - The toast provider (`Toasts`): append, remove by id, the default delay, and
    `useToast` outside a provider.
  - The result list (`ItemList`): the kind label, the empty branch and the dispatch by
    the `type` tag.

JavaScript helpers the code relies on are modelled in `Text`:

| JavaScript | Model |
|---|---|
| `includes`, `indexOf` | `Contains`, `Find` |
| `toLowerCase` | ASCII only |
| `parseInt` of a digit run | `DecimalValue` |
| printing an integer | `IntToString` |

`undefined`, `null` and thrown errors are `Option` and `Result` (`Wrappers`).

## Model

| member | source | states |
|---|---|---|
| CartLines.TotalAppend | src/store/cart-store-new.ts:93-98 | the reduce total is additive over concatenation of line arrays |
| CartLines.Total | src/store/cart-store-new.ts:93-98 | the `reduce` sum of price times quantity; stated by the Total lemmas |
| CartLines.TotalSnoc | src/store/cart-store-new.ts:94-96 | one more reduce step adds exactly that line's price times quantity |
| CartLines.TotalSplice | src/store/cart-store-new.ts:93-98 | replacing one line changes the total by the difference of the two lines' amounts |
| CartLines.Find | src/store/cart-store-new.ts:37 | `find` returns the first line with the id, and none exactly when no line carries it |
| CartLines.QuantityOf | src/store/cart-store-new.ts:88-91 | 0 for an absent id, otherwise the quantity of the first line with that id (the only one when ids are unique) |
| CartLines.FindSameIds | src/store/cart-store-new.ts:37-46 | arrays with the same ids in the same places answer every `find` alike |
| CartLines.Bump | src/store/cart-store-new.ts:55-62 | the map keeps length, ids and item data, and adds `delta` exactly to the lines with that id |
| CartLines.BumpAbsent | src/store/cart-store-new.ts:55-62 | bumping an id no line carries changes nothing |
| CartLines.BumpAt | src/store/cart-store-new.ts:40-46 | with unique ids only the line carrying the id changes, and it gains `delta` |
| CartLines.BumpUnique | src/store/cart-store-new.ts:55-62 | bumping keeps ids unique |
| CartLines.BumpKeyedBy | src/store/cart-store-new.ts:55-62 | bumping keeps every line keyed by its own item |
| CartLines.BumpQuantity | src/store/cart-store-new.ts:55-62 | after a bump the id reads `delta` more and every other id reads the same |
| CartLines.MapDecrement | src/store/cart-store-new.ts:68-71 | the map keeps length and applies the one-line decrement to each line in place |
| CartLines.KeepPositive | src/store/cart-store-new.ts:72 | the filter leaves only positive lines and never lengthens the array |
| CartLines.KeepPositiveElements | src/store/cart-store-new.ts:72 | every kept line was in the input, and every positive input line is kept |
| CartLines.KeepPositiveAppend | src/store/cart-store-new.ts:72 | the filter keeps order: it distributes over concatenation |
| CartLines.KeepPositiveOfPositive | src/store/cart-store-new.ts:72 | the filter returns an all-positive array unchanged |
| CartLines.KeepPositiveUnique | src/store/cart-store-new.ts:72 | the filter keeps ids unique |
| CartLines.RemoveLine | src/store/cart-store-new.ts:79 | no line with the id survives and the array never grows |
| CartLines.RemoveLineElements | src/store/cart-store-new.ts:79 | every kept line was in the input, and every line with another id is kept |
| CartLines.RemoveLineAppend | src/store/cart-store-new.ts:79 | removing keeps order: it distributes over concatenation |
| CartLines.RemoveLineAbsent | src/store/cart-store-new.ts:77-80 | removing an absent id changes nothing |
| CartLines.RemoveLineOtherQuantity | src/store/cart-store-new.ts:77-80 | removing one id leaves the quantity read for every other id unchanged |
| CartLines.RemoveLineUnique | src/store/cart-store-new.ts:79 | removing keeps ids unique |
| CartLines.RemovePositive | src/store/cart-store-new.ts:77-82 | removing keeps every quantity positive |
| CartLines.RemoveLineKeyedBy | src/store/cart-store-new.ts:77-82 | removing keeps every line keyed by its own item |
| CartLines.RemoveLineSplice | src/store/cart-store-new.ts:77-80 | with unique ids removing deletes exactly the one line and keeps the rest in order |
| CartLines.RemoveLineAt | src/store/cart-store-new.ts:77-81 | that removal lowers the total by exactly the removed line's amount |
| CartLines.AddLine | src/store/cart-store-new.ts:36-51 | after adding, some line carries the id |
| CartLines.AddLineExisting | src/store/cart-store-new.ts:37-46 | an existing id gains `quantity` on its own line only; the length and order stay, and the total rises by price times quantity |
| CartLines.AddLineNew | src/store/cart-store-new.ts:47-50 | a new id appends exactly one line at the end, and the total rises by price times quantity |
| CartLines.AddLineUnique | src/store/cart-store-new.ts:36-51 | adding keeps ids unique |
| CartLines.AddLinePositive | src/store/cart-store-new.ts:36-51 | adding a positive quantity keeps every quantity positive |
| CartLines.AddLineQuantity | src/store/cart-store-new.ts:36-51 | the id reads `quantity` more and every other id reads the same |
| CartLines.IncrementAbsent | src/store/cart-store-new.ts:55-62 | incrementing an absent id leaves the items unchanged |
| CartLines.IncrementPositive | src/store/cart-store-new.ts:55-62 | incrementing keeps every quantity positive |
| CartLines.DecrementLine | src/store/cart-store-new.ts:66-73 | after a decrement every remaining line is positive |
| CartLines.MapDecrementSplice | src/store/cart-store-new.ts:68-71 | with unique ids the decrement map touches only the line carrying the id |
| CartLines.DecrementLineSplice | src/store/cart-store-new.ts:66-73 | on a positive cart with unique ids only that line changes: it loses one, or goes when it reaches zero |
| CartLines.DecrementLineAt | src/store/cart-store-new.ts:66-73 | a line above 1 loses one in place; a line at 1 is removed; ids stay unique |
| CartLines.DecrementLineUnique | src/store/cart-store-new.ts:66-73 | decrementing keeps ids unique on any cart |
| CartLines.DecrementLineKeyedBy | src/store/cart-store-new.ts:66-73 | decrementing keeps every line keyed by its own item |
| CartLines.DecrementLineQuantity | src/store/cart-store-new.ts:66-73 | the id reads one less afterwards, and 0 once its line is gone |
| CartLines.DecrementLineTotal | src/store/cart-store-new.ts:66-74 | the total drops by exactly one unit price |
| CartLines.DecrementLineAbsent | src/store/cart-store-new.ts:66-73 | decrementing an absent id only drops lines already at zero or below, and changes nothing on a positive cart |
| CartLines.UniqueSplit | src/store/cart-store-new.ts:37-46 | with unique ids, the id of line k occurs neither before nor after it |
| CartLines.FindSnoc | src/store/cart-store-new.ts:47-50 | `find` on an array with one line appended returns the old answer, or the new line when the id was absent |
| CartStoreNew.CartStore.constructor | src/store/cart-store-new.ts:33-34 | the store starts empty with total 0 |
| CartStoreNew.CartStore.UpdateTotalPrice | src/store/cart-store-new.ts:93-98 | the loop stores the sum of price times quantity over the lines |
| CartStoreNew.CartStore.AddItem | src/store/cart-store-new.ts:36-53 | the items become the add rule's result and the total is recomputed; uniqueness, positivity and keying by item id are preserved |
| CartStoreNew.CartStore.IncrementItem | src/store/cart-store-new.ts:55-64 | the items become the +1 bump and the total is recomputed; an absent id changes nothing; invariants are kept |
| CartStoreNew.CartStore.DecrementItem | src/store/cart-store-new.ts:66-75 | the items become the decrement result, all positive, with the total recomputed and ids kept unique |
| CartStoreNew.CartStore.RemoveItem | src/store/cart-store-new.ts:77-82 | the id is gone, the total is recomputed and ids stay unique |
| CartStoreNew.CartStore.ClearCart | src/store/cart-store-new.ts:84-86 | no lines and total 0 |
| CartStoreNew.CartStore.GetItemQuantity | src/store/cart-store-new.ts:88-91 | the store's lookup is the shared line lookup: 0 for an absent id, otherwise the quantity of the first line with that id |
| CartStoreNew.CartStore.Rehydrate | src/store/cart-store-new.ts:102-106 | the stored lines are restored and the total is recomputed from them, whatever total was stored |
| CartStoreNew.AddExistingRaisesTotal | src/store/cart-store-new.ts:37-46 | adding a present id raises its quantity by `quantity` and the total by price times quantity |
| CartStoreNew.AddNewRaisesTotal | src/store/cart-store-new.ts:47-52 | adding a new id appends one line with the quantity given and raises the total by price times quantity |
| CartStoreNew.DecrementLowersTotal | src/store/cart-store-new.ts:66-74 | a decrement on a positive duplicate-free cart lowers the total by one unit price and the quantity by one |
| CartStoreSimple.CartStore.constructor | src/store/cart-store-simple.ts:26-27 | the store starts empty with total 0 and a fixed price function |
| CartStoreSimple.CartStore.UpdateTotalPrice | src/store/cart-store-simple.ts:87-93 | the loop stores the sum of price(product) times quantity over the lines |
| CartStoreSimple.CartStore.AddItem | src/store/cart-store-simple.ts:29-47 | the line id is the product name; the items become the add rule's result with the total recomputed; uniqueness, positivity and keying by name are preserved |
| CartStoreSimple.CartStore.IncrementItem | src/store/cart-store-simple.ts:49-58 | the items become the +1 bump and the total is recomputed; an absent id changes nothing |
| CartStoreSimple.CartStore.DecrementItem | src/store/cart-store-simple.ts:60-69 | the items become the decrement result, all positive, with the total recomputed |
| CartStoreSimple.CartStore.RemoveItem | src/store/cart-store-simple.ts:71-76 | the id is gone and the total is recomputed |
| CartStoreSimple.CartStore.ClearCart | src/store/cart-store-simple.ts:78-80 | no lines and total 0 |
| CartStoreSimple.CartStore.GetItemQuantity | src/store/cart-store-simple.ts:82-85 | the store's lookup is the shared line lookup: 0 for an absent id, otherwise the quantity of the first line with that id |
| CartStoreSimple.CartStore.Rehydrate | src/store/cart-store-simple.ts:96-101 | the stored lines are restored and the total is recomputed from them |
| CartStoreSimple.SameNameSharesLine | src/store/cart-store-simple.ts:30-40 | a second product with the same name lands on the first one's line |
| ProductCard.AddedToast | src/components/product-card.tsx:28-33 | the "Added to cart" toast names the product, shows its image and lasts 3000 ms |
| ProductCard.UpdatedToast | src/components/product-card.tsx:37-42 | the "Updated cart" toast reports the product and the new quantity and lasts 10000 ms |
| ProductCard.AddOneRaises | src/components/product-card.tsx:25-26 | adding one raises the product's quantity by exactly one and no other |
| ProductCard.BumpOneRaises | src/components/product-card.tsx:34-35 | incrementing a present product raises its quantity by exactly one and no other |
| ProductCard.HandleIncrement | src/components/product-card.tsx:19-44 | quantity 0 adds one with the "Added" toast; otherwise it increments with an "Updated" toast showing old + 1; either way that name gains exactly one |
| ProductCard.HandleDecrement | src/components/product-card.tsx:46-49 | the cart takes the decrement of the product's name and stays positive and consistent |
| ProductCard.DisabledDecrementIsNoop | src/components/product-card.tsx:98 | the minus button is disabled exactly when the product is absent, and a decrement there would change nothing |
| ProductCard.DecrementEnabled | src/components/product-card.tsx:98 | the minus button is enabled unless the quantity is 0 |
| AccommodationCard.MainImage | src/components/accommodation-card.tsx:42 | the first image if non-empty, else the single image, else ""; empty only when both are missing or empty |
| AccommodationCard.ImageCount | src/components/accommodation-card.tsx:43 | the number of images, 0 without an images array |
| AccommodationCard.PhotoBadge | src/components/accommodation-card.tsx:67-70 | shown exactly when there is more than one image, with the count of the others |
| AccommodationCard.DisplayImage | src/components/accommodation-card.tsx:44-45 | the placeholder after an error; the picture is never blank |
| AccommodationCard.NoPictureShowsPlaceholder | src/components/accommodation-card.tsx:42-45 | a stay with no usable picture shows the placeholder |
| AccommodationCard.ToCartData | src/components/accommodation-card.tsx:23-31 | the cart data copies id and name, with kind accommodation, the per-night price, the currency, the main image and the source |
| AccommodationCard.AddedToast | src/components/accommodation-card.tsx:32-36 | the toast names the stay and carries the main image only when there is one |
| AccommodationCard.HandleAddToCart | src/components/accommodation-card.tsx:22-38 | one unit of the stay is added (quantity defaults to 1), the total stays consistent and one toast is appended |
| ItemList.KindsOf | src/components/item-list.tsx:76 | the set holds exactly the kinds of the items |
| ItemList.GetItemTypeLabel | src/components/item-list.tsx:74-82 | the list label; stated by LabelNamesCommonKind and MixedKindsLabel |
| ItemList.KindsAreOne | src/components/item-list.tsx:76-77 | all of at least one item have kind k exactly when the kind set is {k} |
| ItemList.LabelNamesCommonKind | src/components/item-list.tsx:74-82 | the label is "products", "food items" or "accommodations" exactly when every item, of at least one, is of that kind |
| ItemList.MixedKindsLabel | src/components/item-list.tsx:81 | mixed kinds give "items" |
| ItemList.CardFor | src/components/item-list.tsx:127-136 | each item gets the card of its own `type` tag |
| ItemList.Render | src/components/item-list.tsx:44-136 | an empty list shows the no-results panel; otherwise the query, the total, the label and one card per item in order, each holding its item |
| SearchTypes.Kind | src/search/types.ts:20-94 | the `type` tag tells the three variants apart |
| Tools.FilterMatches | src/ai/tools.ts:32-44 | exactly the catalogue products that match are kept, and no more than the catalogue |
| Tools.Matches | src/ai/tools.ts:34-42 | the case-insensitive substring test on name, brand, categories, description and colour |
| Tools.FilterMatchesAppend | src/ai/tools.ts:32-44 | the filter keeps catalogue order: it distributes over concatenation |
| Tools.FilterMatchesAll | src/ai/tools.ts:32-44 | when every product matches, the filter returns the catalogue |
| Tools.SliceEnd | src/ai/tools.ts:45 | the end index of `slice(0, end)` stays within the array |
| Tools.Slice | src/ai/tools.ts:45 | `slice(0, end)` is a prefix |
| Tools.ProductSearch | src/ai/tools.ts:30-52 | echoes the query; `totalFound` is the number returned; results match, are a prefix of the filtered catalogue and number at most `limit`, exactly `limit` when enough match |
| Tools.EmptyQueryReturnsCatalogue | src/ai/tools.ts:30-45 | an empty query returns the first `limit` catalogue products |
| Tools.NegativeLimitDropsFromEnd | src/ai/tools.ts:45 | a negative limit drops that many matches from the end |
| Tools.ShowCart | src/ai/tools.ts:64-71 | the cart is shown with the action given |
| Tools.ShowCartDefault | src/ai/tools.ts:64 | without an action the action is "view" |
| SimpleFilterSearch.SimpleSearch | src/search/simpleFilterSearch.ts:4-25 | echoes the query; `totalFound` is the number returned; results match and are a prefix of the filtered catalogue, at most `limit` |
| SimpleFilterSearch.SimpleSearchIsToolSearch | src/search/simpleFilterSearch.ts:4-25 | the alternative search answers exactly as the search tool does |
| SimpleFilterSearch.SimpleSearchEmptyQuery | src/search/simpleFilterSearch.ts:9-18 | an empty query returns the first `limit` catalogue products |
| Toasts.AutoDismissDelay | src/components/ui/toast.tsx:34 | the given duration, or 3000 when there is none |
| Toasts.WithoutId | src/components/ui/toast.tsx:41 | no toast with the id survives, every other toast does, and nothing new appears |
| Toasts.WithoutIdAppend | src/components/ui/toast.tsx:41 | removal keeps the others' order: it distributes over concatenation |
| Toasts.WithoutAbsentId | src/components/ui/toast.tsx:41 | removing an absent id leaves the list unchanged |
| Toasts.WithoutIdIdempotent | src/components/ui/toast.tsx:41 | removing the same id twice is removing it once |
| Toasts.AddThenDismiss | src/components/ui/toast.tsx:28-42 | the timed removal of a freshly added toast restores the list it was added to |
| Toasts.ToastProvider.constructor | src/components/ui/toast.tsx:26 | the provider starts with no toasts |
| Toasts.ToastProvider.AddToast | src/components/ui/toast.tsx:28-38 | one toast with the given id is appended and the others are unchanged; the removal delay is returned |
| Toasts.ToastProvider.RemoveToast | src/components/ui/toast.tsx:40-42 | the list becomes the one without that id |
| Toasts.UseToast | src/components/ui/toast.tsx:52-58 | fails with the provider error exactly when there is no provider, otherwise returns it |
| Text.FindFromLeftmost | src/lib/image-utils.ts:16 | the scan finds the first occurrence at or after the start, and finds none only when there is none |
| Text.FindSpec | src/app/page.tsx:45 | `indexOf` finds nothing exactly when `includes` is false, otherwise the first occurrence |
| Text.Lower | src/ai/tools.ts:34-42 | each character is folded on its own and the length is kept |
| Text.LowerIdempotent | src/ai/tools.ts:34-42 | folding twice is folding once |
| Text.IntToString | src/components/product-card.tsx:39 | the shortest decimal spelling of n, without leading zeros, after a minus sign for negatives; `parseInt` of the digits gives back n, or -n for negatives |
| Text.DecimalOfNatToString | src/app/page.tsx:201 | `parseInt` reads back a printed natural number |
| Text.DecimalValue | src/app/page.tsx:201 | `parseInt(s, 10)` of a digit run, read left to right |
| UriEncoding.EncodeUriComponent | src/lib/image-utils.ts:64 | the encoding is never shorter than its input |
| UriEncoding.EncodeSafe | src/lib/image-utils.ts:64 | the encoding holds only unreserved characters and `%`, so no `&`, `=`, `?` or `/` |
| UriEncoding.EncodeAppend | src/lib/image-utils.ts:64 | encoding distributes over concatenation |
| UriEncoding.EncodeUnreservedIsIdentity | src/lib/image-utils.ts:64 | a string of unreserved characters is its own encoding |
| UriEncoding.DecodeEncode | src/lib/image-utils.ts:64 | percent-decoding the encoding gives back the UTF-8 bytes of the input |
| ImageUtils.GetPlaceholderImage | src/lib/image-utils.ts:78-80 | a base64 SVG data URL, never blank |
| ImageUtils.FirstMatchFromLeftmost | src/lib/image-utils.ts:24-36 | the regex scan finds the leftmost match, and none only when there is none |
| ImageUtils.TakeUntil | src/lib/image-utils.ts:24-36 | the greedy `[^c]+` part stops exactly before the first stop character |
| ImageUtils.Capture | src/lib/image-utils.ts:24-36 | none exactly when the pattern never matches; otherwise, at the leftmost match, the longest run without the stop character from where the capture starts (non-empty and inside the URL) |
| ImageUtils.DriveFileId | src/lib/image-utils.ts:21-39 | the thumbnail capture when there is one, else the file capture, else the query capture; none only when no pattern matches |
| ImageUtils.ConvertGoogleDriveUrl | src/lib/image-utils.ts:15-49 | a non-Drive link, or one without a file id, is unchanged; otherwise the result is the download prefix followed by the id |
| ImageUtils.Trim | src/lib/image-utils.ts:56 | the result is the text between a blank head and a blank tail of the string, and neither of its ends is white space |
| ImageUtils.TrimEmptyIffBlank | src/lib/image-utils.ts:56 | a string trims to nothing exactly when it is all white space |
| ImageUtils.GetSafeImageUrl | src/lib/image-utils.ts:55-73 | the placeholder, the proxied or plain Drive rewrite, or the link itself; its cases are stated by the SafeUrl lemmas |
| ImageUtils.SafeUrlNeverBlank | src/lib/image-utils.ts:55-73 | the safe URL is never empty or blank |
| ImageUtils.SafeUrlOfBlank | src/lib/image-utils.ts:56-58 | a missing, empty or blank link gives the placeholder |
| ImageUtils.SafeUrlOfDriveLink | src/lib/image-utils.ts:61-65 | by default a Drive link becomes the proxy route followed by the encoded rewritten link, which percent-decoding recovers |
| ImageUtils.SafeUrlOfDriveLinkWithoutProxy | src/lib/image-utils.ts:68-70 | without the proxy a Drive link is only rewritten |
| ImageUtils.SafeUrlOfOtherLink | src/lib/image-utils.ts:72 | any other non-blank link is returned unchanged |
| ImageUtils.UcUrlQueryMatch | src/lib/image-utils.ts:24 | in `uc?export=ACTION&id=ID` the query pattern first matches at `&id=` |
| ImageUtils.UcUrlNoPathMatch | src/lib/image-utils.ts:30-36 | the path patterns never match a `uc?export=` link |
| ImageUtils.ConvertUcUrl | src/lib/image-utils.ts:23-46 | the `uc?export=ACTION&id=ID` link is rewritten to the download link of ID |
| ImageUtils.FileShareUrlNoThumbnail | src/lib/image-utils.ts:36 | the thumbnail pattern does not match a `file/d/ID/view` link |
| ImageUtils.ConvertFileShareUrl | src/lib/image-utils.ts:29-46 | the `file/d/ID/view` link is rewritten to the download link of ID |
| ImageUtils.ConvertThumbnailShareUrl | src/lib/image-utils.ts:35-46 | the `thumbnail?id=ID&sz=w1000` link is rewritten to the download link of ID |
| ImageUtils.ConvertDownloadUrlFixed | src/lib/image-utils.ts:42-46 | the download link is its own rewrite: rewriting is idempotent on its output |
| ChatPage.JoinText | src/app/page.tsx:186-187 | with no text parts the joined text is empty |
| ChatPage.JoinTextAppend | src/app/page.tsx:186-187 | joining distributes over concatenation of parts |
| ChatPage.UpToSeparatorSpec | src/app/page.tsx:190 | the first piece of `split` is a separator-free prefix: all of the text without a separator, else up to where the first one starts |
| ChatPage.SplitFirstTwoSpec | src/app/page.tsx:190 | a second piece exists exactly when the separator occurs; without one the first piece is the whole text; neither piece holds the separator |
| ChatPage.SplitSecondPrefix | src/app/page.tsx:190 | when the separator occurs, the text starts with the first piece, the separator and the second piece |
| ChatPage.SplitSecondEnd | src/app/page.tsx:190 | the second piece ends at the end of the text or where the next separator starts, so what follows a second separator is dropped |
| ChatPage.SplitFirstTwo | src/app/page.tsx:190 | `const [first, second] = text.split(sep)`; its pieces are stated by the Split lemmas |
| ChatPage.DigitRun | src/app/page.tsx:198 | the greedy `\d+` run is a digit prefix followed by a non-digit or the end |
| ChatPage.FirstMarkerFrom | src/app/page.tsx:198 | the leftmost marker at or after a position, none only when there is none |
| ChatPage.MatchMarkerSpec | src/app/page.tsx:198-202 | a match exists exactly when a marker occurs; its groups rebuild the text, the digits are a non-empty digit run and the middle holds no marker |
| ChatPage.MatchMarker | src/app/page.tsx:198 | the regex match as the leftmost marker with its groups; stated by MatchMarkerSpec |
| ChatPage.Segment | src/app/page.tsx:186-207 | `before` is a separator-free prefix; text without the separator gives (text, "", -1, ""); the index is -1 or more, and -1 leaves the middle empty |
| ChatPage.SegmentWithMarker | src/app/page.tsx:190-202 | with a marker, before + separator + middle + marker + after is a prefix of the text (what follows a second separator is dropped) and the index is the digits' value |
| ChatPage.SegmentReassembles | src/app/page.tsx:190-202 | with the separator occurring once and a marker after it, before + separator + middle + marker + after is the whole text and the index is the digits' value |
| ChatPage.SplitSecondWhole | src/app/page.tsx:190 | with the separator occurring once, the two pieces around it make up the whole text |
| ChatPage.SegmentOfMarker | src/app/page.tsx:197-202 | with a marker, the segments are the split's first piece and the match's middle, parsed digits and tail |
| ChatPage.SegmentWithoutMarker | src/app/page.tsx:193-206 | without a marker, or with an empty segment, middle is "", the index -1 and after is exactly the second piece of the split |
| ChatPage.MatchWrittenMarker | src/app/page.tsx:198-202 | a marker written after a middle in which no marker starts is matched with that middle, number and tail |
| ChatPage.SegmentRoundTrip | src/app/page.tsx:186-207 | a reply written as before, separator, middle, marker for n, after is segmented back into exactly those pieces and n, whenever the separator first occurs where written, no marker starts in the middle and no second separator follows; `|` characters are allowed |
| ChatPage.SegmentRoundTripBarFree | src/app/page.tsx:186-207 | in particular any `|`-free text before and middle round-trip when no second separator follows |
| ChatPage.FindAfterPrefix | src/app/page.tsx:190 | a separator written after a prefix is the first one found when none occurs earlier |
| ChatPage.FirstSearchOutput | src/app/page.tsx:215-219 | the first product-search part whose output is available, none only when there is none |
| ChatPage.RecommendedProduct | src/app/page.tsx:215-224 | a product exactly when the first finished search has an output and the index lies within its products, and then it is the product at that index of that first search; never for a negative index |
| ChatPage.RecommendedFromFirstSearch | src/app/page.tsx:215-224 | whatever unfinished or non-search parts precede the first finished search and whatever follows it, the product is read from that search's output |
| ChatPage.PaymentToProcess | src/app/page.tsx:38-47 | acts exactly when the last message is the assistant's, its text has the payment phrase and it is not the last one handled; it names that message |
| ChatPage.PaymentProcessedOnce | src/app/page.tsx:46-48 | once handled, the same messages never trigger again |
| ChatPage.UserMessageNeverPays | src/app/page.tsx:41 | a user's message never triggers the payment handling |
| ChatPage.PaymentWatcher.constructor | src/app/page.tsx:37 | no payment handled yet |
| ChatPage.PaymentWatcher.OnMessages | src/app/page.tsx:37-63 | a payment to process is remembered, the cart is emptied and one toast is added; otherwise nothing changes |

## Left out

- Floating-point prices: `parseFloat(product.priceEuro)` in the simple store is a fixed,
  otherwise unspecified function `priceOf` from products to integers. The FCFA
  conversion (`Math.round`, `* 655`, `toLocaleString`) that product cards show is not
  modelled.
- `toLowerCase` folds ASCII letters only; Unicode case mapping is not modelled.
- `encodeURIComponent` throws on lone surrogate code units. Dafny's `char` has no lone
  surrogates, so that error path does not arise.
- Persistence: the `persist` middleware and local storage are replaced by `Rehydrate`,
  which takes the stored state as parameters. Only the recompute-on-load rule is kept.
- Timers and randomness:
  - `setTimeout` is replaced by the delay that `AddToast` returns.
  - `Math.random` toast ids are a parameter.
  - `Toasts.AddThenDismiss` states the effect of the timed removal.
  - Interleavings of several pending timers are not modelled.
  - The welcome fade-out timer is not modelled.
- The toast's `action` (a React node) is not part of the model.
- React state that is only presentational is not modelled: the sheets, `isSheetOpen`,
  the image carousel index, auto-scroll and scroll buttons, the welcome screen and all
  JSX rendering. `imageError` is a parameter of `DisplayImage`. The product list, food
  list and cart summary components are not part of this model.
- `src/app/api/chat/route.ts` (the hosted model call and its prompt),
  `src/search/index.ts` and the semantic search module it re-exports are not part of
  this model.
- Food cards and the new product card are not modelled. They pass a cart-line-shaped
  object and no quantity to the simple store's `addItem(product, quantity)`. Their line
  would be keyed by `name`, and the quantity would be `undefined`, so the sums would
  become `NaN`.
- `simpleSearch` returns a `products` field, while its declared result type names
  `items`. The model follows the code.
- `slice(0, limit)` with a fractional or `NaN` limit is not modelled; `limit` is an
  integer.
- `parseInt` precision: a digit run longer than 2^53 loses precision in JavaScript.
  `DecimalValue` is exact.
- Quantities are unbounded integers; JavaScript's number range is not modelled.
