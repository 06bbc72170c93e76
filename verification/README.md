# Property search: a Dafny model

This project models the logic of a client-side property-search application written
in React. Users filter a bundled catalog of house and flat listings, open a listing's
detail page with an image gallery and a floor plan, and keep a list of favorites that
survives page reloads through browser storage.

The model covers the following parts of the application:

- **Search form** (`SearchForm`): the six-field criteria record, the change, submit
  and reset handlers, and the option lists of its select controls.
- **Search pipeline** (`SearchPage`): `handleSearch` as a chain of filter steps over
  the catalog, proved equal to one filter by a criterion-by-criterion reference
  predicate `Matches`. Also the page state that `handleClearSearch` resets.
- **Security helpers** (`Security`): `sanitizeInput` as the chain of six global
  replacements followed by the `[<>]` removal, proved equal to a per-character
  entity escape `Escape` and proved lossless by the decoder `Unescape`. Also
  `sanitizeFormData` and `validatePropertyData`.
- **Favorites store** (`Favorites`): add, remove, query and clear, the load effect
  over an abstract storage outcome, and the two favorite toggles of the result cards
  and the detail page.
- **Formatters** (`Formatters`): `formatDate`, `truncateText` and `getBedroomText`.
- **Image gallery** (`ImageGallery`): the index and modal state and their handlers.
- **Floor plan** (`FloorPlan`): room sizes, total area, floor names, and the
  coordinates at which bedrooms are drawn.

Supporting modules hold what the application borrows from JavaScript:

- `Text`: white space, `trim`, `String(n)`, `parseInt` without a radix (section 19.2.5
  of ECMA-262), ASCII `toLowerCase` and `includes`.
- `JsValues`: a JavaScript value, truthiness, `String(v)` and when it throws.
- `Sequences`: order-preserving `filter`.
- `Listing`: the catalog record and the plain object the screens pass around.

Some facts about the application that the proofs establish:

- The search keeps, in catalog order, exactly the listings that satisfy every active
  criterion. The order of the filter steps is irrelevant.
- A price bound that `parseInt` cannot read empties the result. It does not switch the
  bound off.
- Adding and removing favorites preserve "no two entries share an id" and "every entry
  is valid". Loading from storage does not de-duplicate.
- From four bedrooms on, the floor plan draws the fourth bedroom over the entrance
  marker. With more than four bedrooms, some bedrooms fall outside the house outline.
- The gallery's buttons move the index to 1 or -1 when a listing has no images.

## Model

| member | source | states |
|---|---|---|
| `JsValues.BlankCases` | src/components/utils/security.js:61 | `String(v).trim()` is empty exactly for white-space strings, the empty array, and a one-element array whose element is absent or blank; numbers (0 included), booleans and objects never are |
| `Security.SanitizeInput` | src/components/utils/security.js:7-18 | a falsy input (absent or empty) gives `''`; otherwise the output is never shorter than the input and holds none of `<`, `>`, `"`, `'`, `/` |
| `Security.SanitizeIsEscape` | src/components/utils/security.js:10-17 | the replacement chain, `&` first, equals replacing every character by its entity independently, so no entity it writes is re-escaped within one call |
| `Security.FinalRemovalIsNoop` | src/components/utils/security.js:17 | the trailing `[<>]` removal never finds anything to remove |
| `Security.UnescapeEscape` | src/components/utils/security.js:10-16 | escaping is lossless: decoding the six entities gives the input back |
| `Security.EscapeLength` | src/components/utils/security.js:10-16 | escaping never shortens a string, and lengthens it when a special character occurs |
| `Security.EscapeFixedIff` | src/components/utils/security.js:10-16 | escaping leaves a string unchanged exactly when it has no special character |
| `Security.SanitizeFormData` | src/components/utils/security.js:25-36 | the result has the same keys; non-string fields are copied unchanged and string fields stay strings |
| `Security.SanitizeFormDataFields` | src/components/utils/security.js:29-33 | each string field comes out escaped, free of dangerous characters, and decodes back to the input |
| `Security.ValidatePropertyData` | src/components/utils/security.js:54-63 | a value passes exactly when it is a non-null, non-array object and each of the six required fields is present and filled in for its kind of value; the check throws only for an object with a required field whose `String` throws |
| `Security.EveryField` | src/components/utils/security.js:58-62 | `every` passes exactly when each field's test passes, and throws exactly when some field's test throws after every earlier field passed |
| `Security.RequiredPass` | src/components/utils/security.js:55-62 | the six field tests all pass exactly for an object whose six required fields are filled in; an array fails on `id` |
| `Security.RequiredThrow` | src/components/utils/security.js:58-62 | the field tests throw only for an object holding a required field whose `String` throws |
| `Security.RequiredFieldsFilled` | src/components/utils/security.js:57-62 | for an object holding all six keys, validity is the six fields being filled in |
| `Security.FieldTestIff` | src/components/utils/security.js:59-61 | the per-field test (not undefined, not null, `String` does not throw, not blank) passes exactly for the by-kind `Filled` predicate |
| `SearchForm.InitialFormIsDefaults` | src/components/search/SearchForm.jsx:7-14 | the initial record holds every field's default value |
| `SearchForm.HandleChange` | src/components/search/SearchForm.jsx:16-24 | the named field takes the new value, sanitized when it is the location; every other field is unchanged |
| `SearchForm.HandleSubmit` | src/components/search/SearchForm.jsx:26-36 | the submitted location is the escape of the form's location; all other fields pass unchanged |
| `SearchForm.HandleReset` | src/components/search/SearchForm.jsx:38-47 | every field is back at its default, whatever the form held |
| `SearchForm.SubmittedLocationEscapedTwice` | src/components/search/SearchForm.jsx:16-35 | a typed location reaches the search escaped twice; the second escape is visible exactly when the text holds a special character |
| `SearchForm.PriceOptionsAreSteps` | src/components/search/SearchForm.jsx:49-61 | the price values are `''` then the printed multiples of 100000 from 100000 to 1000000, in order |
| `SearchForm.PriceOptionParses` | src/components/search/SearchForm.jsx:49-61 | every non-empty price option reads with `parseInt` as a multiple of 100000 between 100000 and 1000000 |
| `SearchForm.BedroomOptionsAreCounts` | src/components/search/SearchForm.jsx:107-112 | the bedroom values are `'any'` then the printed counts 1 to 5, each reading back as its count |
| `SearchForm.MonthOptionsAreMonths` | src/components/search/SearchForm.jsx:63-77 | the month values are `'any'` then the twelve month names, none repeated |
| `SearchForm.InitialFormWellFormed` | src/components/search/SearchForm.jsx:7-14 | each select control starts on one of its own options |
| `SearchForm.ChangeKeepsWellFormed` | src/components/search/SearchForm.jsx:16-24 | choosing an option, or typing into the location box, keeps every select on one of its options |
| `SearchForm.SubmitKeepsWellFormed` | src/components/search/SearchForm.jsx:26-33 | submitting keeps every select on one of its options |
| `SearchForm.KeystrokesReescape` | src/components/search/SearchForm.jsx:16-24 | as written, typing `&b` one key at a time leaves `&amp;amp;b` in the box, and the submitted text no longer decodes to `&b` |
| `SearchForm.HandleChangeVerbatim` | src/components/search/SearchForm.jsx:16-24 | corrected change handler: the named field takes the value as typed, every other field is unchanged |
| `SearchForm.VerbatimTypingShowsKeys` | src/components/search/SearchForm.jsx:16-24 | with the corrected handler, typing key by key leaves exactly the typed text in the box, and nothing else changes |
| `SearchForm.SubmitEscapesOnce` | src/components/search/SearchForm.jsx:26-35 | with the corrected handler, the submitted location decodes back to exactly the typed keys |
| `SearchPage.RunStepsIsFilter` | src/components/search/SearchPage.jsx:25-64 | running the filter steps one after another equals one filter by all of them together |
| `SearchPage.StepOrderIrrelevant` | src/components/search/SearchPage.jsx:27-64 | two step lists with the same steps give the same result, in whatever order they run |
| `SearchPage.KindStepsMean` | src/components/search/SearchPage.jsx:28-30 | the type step keeps a listing exactly when the type is blank, `'any'`, or equal to the listing's |
| `SearchPage.BedroomStepsMean` | src/components/search/SearchPage.jsx:33-40 | the bedroom step keeps all for blank or `'any'`, five or more for `'5'`, and otherwise the count `parseInt` reads |
| `SearchPage.MinPriceStepsMean` | src/components/search/SearchPage.jsx:43-45 | a non-empty minimum keeps a listing exactly when it parses and the price is at least that |
| `SearchPage.MaxPriceStepsMean` | src/components/search/SearchPage.jsx:48-50 | a non-empty maximum keeps a listing exactly when it parses and the price is at most that |
| `SearchPage.LocationStepsMean` | src/components/search/SearchPage.jsx:20-23 | after `<` and `>` are stripped, the location step keeps a listing exactly when the lower-cased text is empty or occurs in the lower-cased location or postcode |
| `SearchPage.MonthStepsMean` | src/components/search/SearchPage.jsx:62-64 | the month step keeps a listing exactly when the month is blank, `'any'`, or the listing's added month |
| `SearchPage.StepsMeanMatches` | src/components/search/SearchPage.jsx:20-64 | a listing passes all active steps exactly when it meets every criterion of the reference predicate |
| `SearchPage.HandleSearch` | src/components/search/SearchPage.jsx:16-68 | the search result is the catalog filtered by the reference predicate `Matches`, in catalog order: an order-preserving subsequence holding a listing exactly when it is in the catalog and matches |
| `SearchPage.DefaultsKeepCatalog` | src/components/search/SearchForm.jsx:38-47 | submitting a freshly reset form shows the whole catalog |
| `SearchPage.BedroomChoiceIsBand` | src/components/search/SearchPage.jsx:33-40 | each bedroom option selects its band: `'any'` all, `'1'` to `'4'` that exact count, `'5'` five or more |
| `SearchPage.InvertedPriceRangeIsEmpty` | src/components/search/SearchPage.jsx:43-50 | a minimum above the maximum leaves no listing |
| `SearchPage.UnreadableBoundIsEmpty` | src/components/search/SearchPage.jsx:33-50 | a non-empty price bound, or a bedroom value other than `'5'`, that `parseInt` cannot read leaves no listing |
| `SearchPage.LocationIgnoresCase` | src/components/search/SearchPage.jsx:53-59 | location texts equal up to letter case select the same listings |
| `SearchPage.LocationFindsOccurrence` | src/components/search/SearchPage.jsx:53-59 | text without `<` and `>` that occurs in a listing's location or postcode finds that listing |
| `SearchPage.TypicalSearch` | src/components/search/SearchPage.jsx:27-50 | a type, an exact bedroom count and a price range keep exactly the listings of that type and count whose price lies in the range, bounds included |
| `SearchPage.OpenPage` | src/components/search/SearchPage.jsx:11-12 | the page first shows the whole catalog |
| `SearchPage.Search` | src/components/search/SearchPage.jsx:66-67 | after a search the page is searching and shows exactly the catalog listings that match |
| `SearchPage.ClearSearch` | src/components/search/SearchPage.jsx:74-77 | clearing shows the whole catalog again and leaves search mode, whatever was searched |
| `Favorites.AddFavorite` | src/components/favorites/FavoritesContext.jsx:37-48 | an entry is added exactly when it is valid and its id is not yet saved; it is then appended, otherwise the list is unchanged; afterwards a valid entry's id is saved |
| `Favorites.IsFavorite` | src/components/favorites/FavoritesContext.jsx:55-57 | the scan over the entries in order finds the id exactly when some saved entry carries it |
| `Favorites.RemoveFavorite` | src/components/favorites/FavoritesContext.jsx:51-53 | the result is an order-preserving subsequence holding each entry with another id as often as before and no entry with the id; the id is no longer saved |
| `Favorites.ClearFavorites` | src/components/favorites/FavoritesContext.jsx:60-62 | no id is saved afterwards, and the empty store meets the store invariant |
| `Favorites.AddKeepsInvariant` | src/components/favorites/FavoritesContext.jsx:37-48 | adding keeps ids distinct and every entry valid |
| `Favorites.RemoveKeepsInvariant` | src/components/favorites/FavoritesContext.jsx:51-53 | removing keeps ids distinct and every entry valid |
| `Favorites.AddTwiceIsAddOnce` | src/components/favorites/FavoritesContext.jsx:43-47 | adding the same entry a second time is refused and changes nothing |
| `Favorites.RemoveAbsentIsNoop` | src/components/favorites/FavoritesContext.jsx:51-53 | removing an id that is not saved changes nothing |
| `Favorites.RemoveUndoesAdd` | src/components/favorites/FavoritesContext.jsx:37-53 | removing by id undoes a successful add exactly |
| `Favorites.RemoveKeepsOtherIds` | src/components/favorites/FavoritesContext.jsx:51-57 | removing one id leaves every other id's saved status as it was |
| `Favorites.Load` | src/components/favorites/FavoritesContext.jsx:10-25 | a parsed array whose validation does not throw restores its valid entries in order, each as often as it was stored; any other outcome restores nothing; the stored entry is removed exactly when parsing or a validation throws |
| `Favorites.LoadDiscardsOnThrow` | src/components/favorites/FavoritesContext.jsx:14-23 | a stored array whose first entry has an `id` whose `String` throws restores nothing and removes the stored entry |
| `Favorites.SaveThenLoad` | src/components/favorites/FavoritesContext.jsx:14-30 | a valid list written by the save effect is restored unchanged by the next load |
| `Favorites.LoadKeepsDuplicates` | src/components/favorites/FavoritesContext.jsx:16-18 | loading does not de-duplicate: a stored array holding one valid entry twice restores both |
| `Favorites.PageToggle` | src/components/property/PropertyPage.jsx:25-33 | before the listing is found nothing changes; afterwards a valid listing's saved status flips and an invalid one is never saved |
| `Favorites.Toggle` | src/components/search/SearchResults.jsx:11-19 | each click flips a valid listing's saved status, and never saves an invalid one |
| `Favorites.ToggleTwiceRestores` | src/components/search/SearchResults.jsx:14-18 | two clicks on a valid, unsaved listing restore the store exactly |
| `Favorites.ToggleKeepsOthers` | src/components/search/SearchResults.jsx:14-18 | a click leaves the saved status of every other id alone |
| `Favorites.CatalogListingValidIff` | src/components/utils/security.js:54-62 | a catalog listing is valid exactly when its id, type, location and description are not blank; numeric bedrooms and price always pass |
| `Formatters.FormatDate` | src/components/utils/formatters.js:21-26 | the template literal throws exactly for an object date whose day, month and year are all truthy and one of which `String` throws on; a printed date has truthy day, month and year and splits on spaces into at least three words |
| `Formatters.WordsJoin` | src/components/utils/formatters.js:25 | splitting two texts joined by a space gives the words of the first followed by those of the second |
| `Formatters.FormatDateRoundTrip` | src/components/utils/formatters.js:21-26 | a complete date prints as day, month and year joined by spaces, and splitting on spaces reads the three back |
| `Formatters.FormatDatePlaceholderIff` | src/components/utils/formatters.js:21-24 | the placeholder appears exactly when the day, month or year is missing (zero or empty) |
| `Formatters.TruncateText` | src/components/utils/formatters.js:34-38 | missing or empty text gives `''`; text within the limit is returned unchanged; longer text gives its first `max(limit, 0)` characters followed by `...` |
| `Formatters.TruncateDefault` | src/components/utils/formatters.js:34 | with the default limit the result is at most 103 characters long |
| `Formatters.TruncateIdempotent` | src/components/utils/formatters.js:34-38 | truncating an already truncated text to the same limit changes nothing |
| `Formatters.BedroomText` | src/components/utils/formatters.js:45-48 | the label is `5+ Bedrooms` exactly from five bedrooms up; below five it splits into the printed count and `Bedroom` or, for every count but one, `Bedrooms`; `parseInt` of the label gives the count, capped at five, and the label ends in `s` exactly when the count is not one |
| `ImageGallery.Initial` | src/components/property/ImageGallery.jsx:5-6 | the gallery starts on the first image with the enlarged view closed |
| `ImageGallery.Prev` | src/components/property/ImageGallery.jsx:8-12 | the modal flag is unchanged; from an index in range the new index is the previous one round the ring |
| `ImageGallery.Next` | src/components/property/ImageGallery.jsx:14-18 | the modal flag is unchanged; from an index in range the new index is the next one round the ring |
| `ImageGallery.SelectThumbnail` | src/components/property/ImageGallery.jsx:20-22 | clicking a thumbnail shows that image, marks it and no other thumbnail active, and leaves the modal flag alone |
| `ImageGallery.OpenModal` | src/components/property/ImageGallery.jsx:24-26 | the enlarged view opens on the current image |
| `ImageGallery.CloseModal` | src/components/property/ImageGallery.jsx:28-30 | the enlarged view closes and the current image stays |
| `ImageGallery.ModalKeepsPosition` | src/components/property/ImageGallery.jsx:96-119 | closing undoes opening, and the modal's buttons move exactly as the main buttons do |
| `ImageGallery.PrevNextInverse` | src/components/property/ImageGallery.jsx:8-18 | back and forward undo each other |
| `ImageGallery.NextTimesRotates` | src/components/property/ImageGallery.jsx:14-18 | `k` presses of forward move `k` places round the ring and stay in range |
| `ImageGallery.FullCircle` | src/components/property/ImageGallery.jsx:14-18 | one press of forward per image returns to the starting image |
| `ImageGallery.EmptyGalleryLeavesRange` | src/components/property/ImageGallery.jsx:8-18 | with no images, forward moves the index to 1 and back moves it to -1 |
| `FloorPlan.GetRoomSizes` | src/components/property/FloorPlan.jsx:8-28 | the fixed rooms carry their type's sizes, the area label is the total area, and there is one size per bedroom (none for a negative count), bedroom `i` carrying its own size |
| `FloorPlan.FixedRoomTexts` | src/components/property/FloorPlan.jsx:10-12 | the living room, kitchen and bathroom labels are the printed texts of each type |
| `FloorPlan.BedroomTexts` | src/components/property/FloorPlan.jsx:17-25 | the master, the second and every later bedroom carry the printed texts of each type |
| `FloorPlan.TotalArea` | src/components/property/FloorPlan.jsx:9-25 | a consistency check between two figures the plan shows side by side, which the program neither computes nor promises: the total area label claims more than the summed area of the rooms whose sizes the plan lists, for every bedroom count |
| `FloorPlan.BedroomsAreaClosed` | src/components/property/FloorPlan.jsx:17-25 | the bedrooms' summed area is the master's, then the second's, then a fixed area per further bedroom |
| `FloorPlan.AreaTextReadsBack` | src/components/property/FloorPlan.jsx:14 | `parseInt` of the area label gives the total area |
| `FloorPlan.AreaGrowsPerBedroom` | src/components/property/FloorPlan.jsx:14 | each extra bedroom adds 15 square metres to a house and 10 to anything else |
| `FloorPlan.FloorLevelText` | src/components/property/FloorPlan.jsx:32-37 | the printed floor text is the English list of the floors the plan has |
| `FloorPlan.FloorLevels` | src/components/property/FloorPlan.jsx:32-37 | every plan has a first floor, a ground floor exactly for a house, and a second floor exactly for a house with four bedrooms or more |
| `FloorPlan.FloorsGrowWithBedrooms` | src/components/property/FloorPlan.jsx:32-37 | more bedrooms never remove a floor: the smaller plan's floors are a prefix of the larger's |
| `FloorPlan.BedroomsDisjoint` | src/components/property/FloorPlan.jsx:88-98 | no two bedrooms of a plan overlap |
| `FloorPlan.BedroomRect` | src/components/property/FloorPlan.jsx:88-98 | a drawn bedroom never overlaps the living room, kitchen, bathroom or hallway, and lies inside the outline exactly when there are at most three bedrooms or it is in the first two rows |
| `FloorPlan.BedroomsInsideIff` | src/components/property/FloorPlan.jsx:56-98 | all bedrooms lie inside the house outline exactly when there are at most four |
| `FloorPlan.FourthBedroomCoversEntrance` | src/components/property/FloorPlan.jsx:59-98 | from four bedrooms on, the fourth bedroom overlaps the entrance marker and the other bedrooms of the first two rows do not |
| `FloorPlan.BedroomLabel` | src/components/property/FloorPlan.jsx:100-118 | exactly the first bedroom is labelled `Master`; every other label reads back after `Bed ` as the bedroom's number counted from one |
| `FloorPlan.BedroomLabelsDistinct` | src/components/property/FloorPlan.jsx:100-118 | no two bedrooms share a label |

## Left out

- Rendering, routing, CSS, the map, the SVG drawing beyond the rectangle coordinates,
  image load fallbacks, and console logging: these are presentation, not logic.
- `localStorage` and `JSON.parse`/`JSON.stringify`: storage is reduced to the parse
  outcome `Saved` (missing or empty, unparseable, parsed value). `SaveThenLoad` assumes
  that serialising and parsing give the same array back.
- React's state batching and the stale `favorites` closure in `addFavorite`: each
  handler is modelled as acting on the current state.
- `formatPrice` and the detail page's own price formatter: they call `Intl.NumberFormat`,
  which lies outside this code.
- `escapeHTML`: it goes through the DOM.
- The drag-and-drop helpers and `PropertyTabs`: outside the modelled core.
- Floating point: numbers are unbounded integers. The catalog's prices, bedroom
  counts and dates are whole numbers. Rounding of numbers above 2^53 is not modelled.
- Text.Lower: lower-cases ASCII letters only; JavaScript's `toLowerCase` also folds
  other scripts.
- Formatters.TruncateText: counts characters, where JavaScript counts UTF-16 code
  units.
- JsValues.ToJsString: is `String(v)` only where it does not throw. The throwing case
  (an object with an own `toString` key, or an array holding one) is the separate
  predicate `StringThrows`, which `validatePropertyData` and `formatDate` consult
  first.
- Favorites.AddFavorite: a validation that throws is modelled as a refusal that leaves
  the list unchanged. In JavaScript the exception propagates to the caller and no
  boolean is returned.
- Favorites.IsFavorite: compares ids structurally. JavaScript's `===` compares
  strings and numbers by value, as here, but objects by reference.
- The location box's `maxLength` attribute: input length is not bounded in the model.
- FloorPlan.GetRoomSizes: a non-integer or non-numeric bedroom count is not modelled.

## Findings

| source | as written | input that shows it | evidently intended | confidence | as-written member | corrected member |
|---|---|---|---|---|---|---|
| src/components/search/SearchForm.jsx:16-24 | the change handler sanitizes the whole box value on every keystroke, so text already escaped is escaped again, and the submit handler escapes once more | typing `&` then `b` leaves `&amp;amp;b` in the box; the search receives `&amp;amp;amp;b`, which decodes to `&amp;amp;b`, not `&b` | keep the typed text in the box and escape it once, at submit | medium, not executed | `SearchForm.KeystrokesReescape` | `SearchForm.SubmitEscapesOnce` |
