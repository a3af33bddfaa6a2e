# Car dealership front end: a verified model of its listing logic

The site lists used cars held in a hosted `cars` table. Visitors browse a catalog that
can be searched, filtered and sorted. Each car appears as a card with an image carousel.
An admin page adds, edits and deletes listings through a form. Almost all of the code
is rendering. This project models the parts that compute something:

- **Catalog engine** (`catalog.dfy`, `filter_sidebar.dfy`). The filter predicate drops
  cars whose price is not a number. It then checks the case-insensitive search, the
  brand and the inclusive price and year ranges. The five sort orders, the sorted
  brand list, the Clear Filters reset and the sidebar's range inputs are modelled too.
- **Image list and carousel** (`images.dfy`, `car_card.dfy`). The primary image is
  merged with the additional images, without blanks or duplicates and in order. The
  carousel steps round the list with modular arithmetic. The model also covers the
  image modal, the View More rule and the price guard (`cars.dfy`).
- **Admin form** (`car_form.dfy`). It covers the initial fields, editing of the chosen
  files and the existing images, the file extension and the saved record. It also
  covers the outcome of a submit: upload, write, error text and `loading`.
- **Admin page** (`admin_view.dfy`). It covers the open-form state, the storage key of
  an image URL, the order of the delete steps and the inventory total.

JavaScript behaviour is written out where it matters. `Number()` and `parseInt` are
modelled on strings (`numbers.dfy`). The default string sort uses character order, which agrees with
JavaScript's code-unit order within the Basic Multilingual Plane (`strings.dfy`). `x || default` treats 0 and NaN as falsy. `+` concatenates once a
string is involved. `%` is modelled as JavaScript's truncating remainder.
`Array.prototype.sort` is modelled as a stable insertion sort (`sorting.dfy`).
`filter` keeps order and `split` then `pop` takes the last segment (`seqs.dfy`,
`strings.dfy`).

Components hold their state in React hooks. In the model, each component's state is a
class whose fields the handlers update. The clock, the user's confirmation, the
upload and the table writes become parameters of those handlers. Handlers that talk to
the backend return the steps they take, or the request they issue.

Every filtered car is rendered, and the search looks only at model and brand.

## Model

| member | source | states |
|---|---|---|
| Images.CollectImages | src/components/CarCard.tsx:15-26 | The push-if-not-included loop builds exactly the image list: the primary URL if non-empty, then each non-empty additional URL not yet in the list |
| Images.ImageListSpec | src/components/CarCard.tsx:16-24 | The image list has no duplicates. A non-empty primary URL comes first. A URL is in the list iff it is non-empty and is the primary or an additional URL. The additional URLs keep the order of their first occurrences |
| CarCard.JsRem | src/components/CarCard.tsx:29 | JavaScript `%` with a positive divisor `n`: the remainder lies strictly between `-n` and `n`, differs from the dividend by a multiple of `n`, and takes the dividend's sign (non-negative for a non-negative dividend, non-positive for a negative one) |
| CarCard.Next | src/components/CarCard.tsx:28-30 | From any non-negative index, in range or stale, the next index lies in `[0, n)` |
| CarCard.Prev | src/components/CarCard.tsx:32-34 | From any non-negative index, in range or stale, the previous index lies in `[0, n)` |
| CarCard.NextPrevInverse | src/components/CarCard.tsx:28-34 | Next moves to `i + 1` and wraps from the last image to the first. Previous moves to `i - 1` and wraps from the first to the last. Each undoes the other |
| CarCard.AdvanceIsModular | src/components/CarCard.tsx:28-30 | `k` presses of the next arrow from `i` land on `(i + k) mod n` |
| CarCard.FullCycle | src/components/CarCard.tsx:28-30 | `n` presses of the next arrow return to the starting image |
| CarCard.ViewMoreRule | src/components/CarCard.tsx:197-206 | View More shows iff the description is non-empty and has at least three line breaks or more than 150 characters |
| CarCard.CardView.constructor | src/components/CarCard.tsx:10-26 | A new card shows the first image, with the modal closed and the description clamped. Its images are the image list of the car |
| CarCard.PictureAt | src/components/CarCard.tsx:123-127 | The placeholder shows iff the list is empty; an image shows only for an index inside the list, and it is the image at that index; an index inside the list always shows its image |
| CarCard.ClampIndex | src/components/CarCard.tsx:10 | The corrected index after the images change: non-negative and inside the list (or 0), the same index while it still fits, the first image otherwise |
| CarCard.StaleIndexAfterPropChange | src/components/CarCard.tsx:10-26 | A mounted card on the third of three images that receives a row of the same car with two images keeps index 2, which now names no image |
| CarCard.CardView.ShownImage | src/components/CarCard.tsx:123-127 | The placeholder shows iff the list is empty; an image is shown only for an index inside the list, and it is the image at that index; a non-empty list with an index outside it shows the `undefined` image; while the index is valid no `undefined` image is shown |
| CarCard.CardView.ReceiveCar | src/components/PublicView.tsx:179 | A new row for the same car delivered to a mounted card (same `key={car.id}`, no unmount in between) recomputes the image list; the index and the other state are kept as they were |
| CarCard.CardView.ReceiveCarClamped | src/components/CarCard.tsx:10-26 | The corrected prop change: the image list is recomputed, the index is clamped with `ClampIndex`, and the card is valid again |
| CarCard.CardView.NextImage | src/components/CarCard.tsx:132-144 | The right arrow, offered only for more than one image, moves to `Next`; from any non-negative index, a stale one included, it lands on a valid index |
| CarCard.CardView.PrevImage | src/components/CarCard.tsx:132-139 | The left arrow, offered only for more than one image, moves to `Prev`; from any non-negative index, a stale one included, it lands on a valid index |
| CarCard.CardView.SelectImage | src/components/CarCard.tsx:149-157 | An indicator dot selects its own image |
| CarCard.CardView.HandleImageClick | src/components/CarCard.tsx:36-40 | The modal opens iff there is at least one image; otherwise nothing changes |
| CarCard.CardView.CloseImageModal | src/components/CarCard.tsx:67-69 | The close button closes the modal |
| CarCard.CardView.ToggleDescription | src/components/CarCard.tsx:207-209 | View More / View Less flips the full-description flag |
| Cars.FormatPrice | src/components/CarCard.tsx:47-58 | A NaN, zero or negative price shows the zero label. A positive number shows its amount. A non-empty string that converts to a non-negative number shows the string itself, and any other string shows the zero label. The admin table's `formatPrice` (`src/components/AdminView.tsx:60-73`) is the same guard, modelled by the same function |
| Catalog.ComparatorIsTotalPreorder | src/components/PublicView.tsx:49-61 | Each of the five comparators is a total preorder, so the sort is well defined |
| Catalog.FilteredCarsSelects | src/components/PublicView.tsx:31-46 | The displayed list is a permutation of exactly the loaded cars that pass the filter. A passing car occurs as often as it was loaded, and no other car occurs |
| Catalog.UnparsablePriceExcluded | src/components/PublicView.tsx:34-35 | A car whose price is NaN is never displayed, whatever the other filters are |
| Catalog.Shown | src/components/PublicView.tsx:31-46 | A car is displayed iff it was loaded and passes the filter callback, whatever the sort key |
| Catalog.ShownPricesParse | src/components/PublicView.tsx:34-35 | Every displayed car's price converts to a number |
| Catalog.ShownSorted | src/components/PublicView.tsx:48-61 | The displayed list is non-decreasing in the selected key's sort value: the price, the negated price, the negated year, the year, or the negated creation time |
| Catalog.BoundsInclusive | src/components/PublicView.tsx:42-43 | For a car with a numeric price that matches search and brand, the price and year bounds decide, inclusive at both ends |
| Catalog.SearchIgnoresCase | src/components/PublicView.tsx:37-39 | Searching for a term or for its lower-cased form finds exactly the same cars |
| Catalog.SearchSemantics | src/components/PublicView.tsx:37-39 | The search holds iff the lower-cased term occurs in the lower-cased model or brand; the empty term matches every car |
| Catalog.SortOrders | src/components/PublicView.tsx:48-61 | Price-low is non-decreasing in price and price-high non-increasing. Year-new is non-increasing in year and year-old non-decreasing. Newest, and any unknown key, is non-increasing in creation time |
| Catalog.SortTiesKeepFetchOrder | src/components/PublicView.tsx:49-61 | Cars that tie on the sort key keep their order from the loaded list (stable sort) |
| Catalog.ReverseOfPriceLow | src/components/PublicView.tsx:50-53 | A list in price-low order, reversed, is in price-high order |
| Catalog.DistinctPricesNoTies | src/components/PublicView.tsx:52-53 | When all prices differ, two cars tied under the price comparator are the same car |
| Catalog.PriceOrdersAreReverses | src/components/PublicView.tsx:31-53 | When no two cars that pass the filters share a price, price-high displays exactly the reverse of price-low |
| Catalog.BrandsSpec | src/components/PublicView.tsx:25-28 | The brand list has no duplicates, is strictly ascending in character order (JavaScript's code-unit order within the Basic Multilingual Plane), and holds exactly the brands of the loaded cars |
| Catalog.BrandOptionsSelect | src/components/FilterSidebar.tsx:94-99 | Every brand option is "" or a loaded car's brand. Selecting "" accepts every car; any other option accepts exactly that brand |
| Catalog.SortOptionsAreTheKeys | src/components/FilterSidebar.tsx:76-80 | The sort selector offers exactly the five keys, and each selects its own order |
| Catalog.ClearedFiltersShow | src/components/PublicView.tsx:164-170 | After Clear Filters a car is shown iff its price parses to a number in `[0, 2_000_000_000_000]` and its year lies in `[1990, currentYear]` |
| Catalog.CatalogPage.constructor | src/components/PublicView.tsx:10-22 | The page starts with cleared filters, `newest` order and the sidebar closed |
| Catalog.CatalogPage.ClearFilters | src/components/PublicView.tsx:164-170 | Search and brand become "", price `[0, 2_000_000_000_000]`, year `[1990, currentYear]`; sort order and sidebar unchanged |
| Catalog.CatalogPage.EditMinPrice | src/components/FilterSidebar.tsx:113-116 | The min-price input changes only the lower price bound |
| Catalog.CatalogPage.EditMaxPrice | src/components/FilterSidebar.tsx:126-129 | The max-price input changes only the upper price bound |
| Catalog.CatalogPage.EditMinYear | src/components/FilterSidebar.tsx:149-152 | The min-year input changes only the lower year bound |
| Catalog.CatalogPage.EditMaxYear | src/components/FilterSidebar.tsx:161-164 | The max-year input changes only the upper year bound |
| FilterSidebar.ParsedOr | src/components/FilterSidebar.tsx:114 | `parseInt(value) \|\| fallback` gives the parsed value when it is a non-zero number, and the fallback when it is NaN or 0 |
| FilterSidebar.ParsedOrOfShow | src/components/FilterSidebar.tsx:114 | Typing the number `n` gives `n`, except that 0 gives the fallback; a cleared input gives the fallback |
| FilterSidebar.OnMinPriceChange | src/components/FilterSidebar.tsx:113-116 | Editing the min price sets it to the parsed input, or 0, and keeps the max |
| FilterSidebar.OnMaxPriceChange | src/components/FilterSidebar.tsx:126-129 | Editing the max price sets it to the parsed input, or 2_000_000_000_000, and keeps the min |
| FilterSidebar.OnMinYearChange | src/components/FilterSidebar.tsx:149-152 | Editing the min year sets it to the parsed input, or 1990, and keeps the max year |
| FilterSidebar.OnMaxYearChange | src/components/FilterSidebar.tsx:161-164 | Editing the max year sets it to the parsed input, or `currentYear`, and keeps the min year |
| FilterSidebar.RangeEdits | src/components/FilterSidebar.tsx:113-164 | Typing `n` sets that end to `n`. Typing 0 sets min price 0, max price 2_000_000_000_000, min year 1990 and max year `currentYear`. The other end is kept |
| FilterSidebar.BlankInputs | src/components/FilterSidebar.tsx:113-164 | Clearing an input sets that end to its default: 0, 2_000_000_000_000, 1990 or `currentYear` |
| FilterSidebar.BrandOptions | src/components/FilterSidebar.tsx:94-99 | The options are "All Brands" (value "") followed by one option per brand, and nothing else |
| CarForm.InitialFormData | src/components/CarForm.tsx:15-21 | A new listing starts blank with the current year. An edit copies brand and model. A zero year becomes the current year; a truthy price is copied and a falsy one (0 or "") becomes the empty text. A null description becomes "" |
| CarForm.FileExtensionSpec | src/components/CarForm.tsx:72 | The extension holds no dot and ends the name. It follows the last dot, or is the whole name when there is no dot |
| CarForm.SavedYearSpec | src/components/CarForm.tsx:109 | `parseInt(year.toString())` gives back the year field, NaN included |
| CarForm.SavedPriceSpec | src/components/CarForm.tsx:110 | A numeric price is saved unchanged; a typed price is saved as parsed |
| CarForm.SavedDescription | src/components/CarForm.tsx:111 | The description is null iff it is blank after trimming; otherwise it is the trimmed text |
| CarForm.FirstImage | src/components/CarForm.tsx:112 | `image_url` is set iff the list is non-empty and its first URL is non-empty, and it is then the list's first URL |
| CarForm.CarDataSpec | src/components/CarForm.tsx:104-115 | The record has trimmed brand and model, the year, the price, the description (null when blank), the image list and its first image, and the given time |
| CarForm.ResaveKeepsText | src/components/CarForm.tsx:15-21 | Reopening a saved listing in the form and saving it again without edits keeps its brand, model and description, since the saved text is already trimmed |
| CarForm.SavedImagesReload | src/components/CarForm.tsx:104-113 | Save distinct non-empty URLs, then rebuild the image list from the saved columns as the card does: the result is exactly the saved list |
| CarForm.FormState.constructor | src/components/CarForm.tsx:13-36 | The form starts idle with no error, the initial fields, no chosen files or previews, and the image list of the edited car as its existing images, which hold no duplicate and no empty URL (`Valid`) |
| CarForm.FormState.EditBrand | src/components/CarForm.tsx:279 | The brand input replaces only the brand field |
| CarForm.FormState.EditModel | src/components/CarForm.tsx:294 | The model input replaces only the model field |
| CarForm.FormState.EditYear | src/components/CarForm.tsx:311 | The year input stores `parseInt` of the text, NaN included |
| CarForm.FormState.EditPrice | src/components/CarForm.tsx:327 | The price input stores the typed text |
| CarForm.FormState.EditDescription | src/components/CarForm.tsx:342 | The description input replaces only the description |
| CarForm.FormState.HandleImageChange | src/components/CarForm.tsx:38-45 | Choosing no file changes nothing; otherwise the new files follow the earlier selection in order |
| CarForm.FormState.PreviewLoaded | src/components/CarForm.tsx:48-50 | A finished preview is appended to the previews |
| CarForm.FormState.RemoveNewImage | src/components/CarForm.tsx:59-62 | The same position leaves both the chosen files and the previews |
| CarForm.FormState.RemoveExistingImage | src/components/CarForm.tsx:64-66 | The position is removed from the existing images (see `Seqs.RemoveAtSpec`), which still hold no duplicate and no empty URL |
| CarForm.FormState.HandleSubmit | src/components/CarForm.tsx:94-141 | Without chosen files nothing is uploaded. A failed upload sets its message and issues no write. Otherwise an update (edit) or insert (new) of the assembled record is issued. `onSubmit` runs iff that write succeeds; a failed write sets its error text. `loading` ends false |
| Seqs.RemoveAtSpec | src/components/CarForm.tsx:60-65 | Removing an index inside the list deletes exactly that position and keeps the rest in order; any other index leaves the list unchanged |
| Seqs.RemoveAtKeepsDistinct | src/components/CarForm.tsx:64-66 | Removing a position from a list without duplicates leaves it without duplicates and adds no value |
| Seqs.AppendNewSpec | src/components/CarForm.tsx:26-35 | The push-if-not-included loop keeps its start as a prefix and adds no duplicates. It holds exactly the start and the new values, in first-occurrence order |
| AdminView.StorageKeySpec | src/components/AdminView.tsx:25-32 | A key exists iff the URL is non-empty and does not end in `/`. It is then the part after the last `/`, holding no `/` |
| AdminView.NumericTotalIsSum | src/components/AdminView.tsx:130 | When every price is a number, the left fold starting from 0 is their sum |
| AdminView.TextPriceMakesTextTotal | src/components/AdminView.tsx:130 | Once a string price occurs the total becomes text |
| AdminView.TextPriceConcatenates | src/components/AdminView.tsx:130 | A number followed by a string price totals the number's digits followed by the string (5 and "7" give "57") |
| AdminView.AdminState.constructor | src/components/AdminView.tsx:10-11 | The page starts with the form closed and no listing being edited |
| AdminView.AdminState.HandleEditCar | src/components/AdminView.tsx:13-16 | Edit opens the form, and the form it renders (`src/components/AdminView.tsx:75-83`) receives that car |
| AdminView.AdminState.HandleAddNewCar | src/components/AdminView.tsx:101 | Add New Car, shown only while the form is closed, opens it, and the form receives no listing |
| AdminView.AdminState.HandleFormSubmit | src/components/AdminView.tsx:49-53 | Submit closes the form, clears the listing and reloads |
| AdminView.AdminState.HandleFormCancel | src/components/AdminView.tsx:55-58 | Cancel closes the form and clears the listing without reloading |
| AdminView.AdminState.HandleDeleteCar | src/components/AdminView.tsx:18-47 | Declining does nothing. Otherwise the storage removal, when the URL has a key, comes first. The row delete follows whatever storage returned. Then comes a reload on success or the "Failed to delete car" alert on failure |
| Strings.SplitSpec | src/components/CarCard.tsx:206 | `split(c)` gives one more part than there are separators; no part holds the separator, and joining the parts gives back the string |
| Strings.LastSegmentIsAfterLast | src/components/CarForm.tsx:72 | `split(c).pop()` is the longest separator-free suffix, and the whole string when it has no separator |
| Strings.ContainsSpec | src/components/PublicView.tsx:38-39 | `includes` holds iff the needle occurs at some position |
| Strings.StringLeIsTotalOrder | src/components/PublicView.tsx:27 | The default sort order on strings is total, transitive and antisymmetric |
| Strings.TrimIdempotent | src/components/CarForm.tsx:107-111 | Trimming twice equals trimming once |
| Strings.TrimCut | src/components/CarForm.tsx:107-108 | `trim` keeps one contiguous piece of the string, and everything it cuts off on either side is white space |
| Strings.TrimEdges | src/components/CarForm.tsx:107-108 | The trimmed string neither starts nor ends with white space |
| Strings.ToLowerIdempotent | src/components/PublicView.tsx:38-39 | Lower-casing is idempotent and leaves no upper-case ASCII letter |
| JsNumbers.NumberOfShow | src/components/PublicView.tsx:34 | `Number(String(n))` gives `n` back |
| JsNumbers.ParseIntOfShow | src/components/CarForm.tsx:109 | `parseInt(String(n))` gives `n` back |
| Sorting.SortBySpec | src/components/PublicView.tsx:51-60 | The sort returns a sorted permutation of its input |
| Sorting.SortByStable | src/components/PublicView.tsx:51-60 | Elements that tie under the comparator keep their relative order |
| Sorting.SortedUnique | src/components/PublicView.tsx:50-53 | Under a total preorder whose ties are equal, two sorted permutations of the same values are identical |

## Findings

| source | as written | input that shows it | evidently intended | confidence | as-written member | corrected member |
|---|---|---|---|---|---|---|
| src/components/CarCard.tsx:10 | The carousel index survives a new `car` prop on a mounted card (same `key={car.id}`, `src/components/PublicView.tsx:179`). A shorter image list then leaves `images[currentImageIndex]` (`src/components/CarCard.tsx:75`, `:126`) `undefined`, and the counter (`:97`) overshoots. A single refetch does not show it, because `fetchCars` sets `loading` first (`src/hooks/useCars.ts:12`) and the spinner (`src/components/PublicView.tsx:64-70`) unmounts every card | Two overlapping fetches, for instance two realtime events in quick succession (`src/hooks/useCars.ts:44-52`). The first completes with a row of three images, the cards mount, and the visitor steps to the third image. The second then delivers the same car with two images without an unmount: the image source is `undefined` and the counter reads "3 / 2" | The index is brought back into range when the images change | not executed | CarCard.CardView.ReceiveCar, CarCard.StaleIndexAfterPropChange | CarCard.CardView.ReceiveCarClamped, CarCard.ClampIndex |

## Left out

- The fetch hook (`src/hooks/useCars.ts`): the select query, the realtime subscription and its loading state. The loaded `cars` sequence is an input.
- The loading gate: each fetch sets `loading` (`src/hooks/useCars.ts:12`) and the catalog then renders only a spinner (`src/components/PublicView.tsx:64-70`), which unmounts every card, so a card normally remounts with its first image after a refetch. The model has no mounting; `CardView.ReceiveCar` is the prop change on a card that stays mounted, which only overlapping fetches produce.
- Supabase client creation (`src/lib/supabase.ts:1-6`); only the `Car` record type is modelled.
- `uploadImages` (`src/components/CarForm.tsx:68-92`) runs concurrent uploads under names built from the clock and a random number. Its outcome is a parameter of `HandleSubmit`: the list of public URLs, or the failing file's name and message.
- FileReader previews arrive asynchronously, so `PreviewLoaded` appends in completion order. The model claims no index alignment between previews and chosen files.
- Locale formatting (`toLocaleString('en-NG')`) and the currency prefix are not modelled; `FormatPrice` returns which label is shown, not its text.
- Prices and years are integers. Fractions, exponents, hexadecimal and `Infinity` in `Number()`, `parseInt` and `parseFloat` are not modelled. A stored string price such as "12.5" or "1e6" is therefore NaN in the model, so the catalog hides a car the site shows (`src/components/PublicView.tsx:34-35`) and `FormatPrice` gives the zero label where the site shows the text.
- CarForm.SavedPriceSpec: `parseFloat` on the typed price is modelled by the integer prefix `parseInt` reads, so a price such as "12.5" is not modelled.
- `created_at` is an integer timestamp; parsing the date string with `new Date(...)` is not modelled.
- Lower-casing covers ASCII letters only. String lengths and comparisons are on characters, not UTF-16 code units.
- AdminView.NumericTotalIsSum: the sum is stated for numeric prices only. For string prices, `TextPriceMakesTextTotal` and `TextPriceConcatenates` describe the concatenation instead of a sum.
- The confirmation prompt's text, `console.error` logging, the phone link of "Call for Inspection" and `e.preventDefault()` are presentation or side effects.
- The plain setters for the search box, brand selector, sort selector and sidebar visibility are not modelled as methods. Their effect is covered by `CatalogPage.Displayed` over the fields.
- The intermediate `loading = true` state during a submit is not observable in the model, because `HandleSubmit` is one atomic step.
- The markup after the closing brace of `CarForm` (`src/components/CarForm.tsx:370-574`) is not executable and is not modelled.
- AboutView, ContactView, Header, App, AdminPage and AuthForm are rendering, routing or calls into the auth service.
- `nextImage` and `prevImage` with an empty image list (a `% 0`) cannot happen, because the arrows are rendered only for more than one image.
