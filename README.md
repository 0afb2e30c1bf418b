# Catalog search engine: a Dafny model

This project models the logic core of a client-side catalog browser (`script.js`).
The browser loads a list of media entries from a spreadsheet web app and caches it in
`localStorage` for thirty minutes. Users can search the list, restrict it to one
category (`Medientyp`) and view the results grouped by category. They can also mark
entries as favorites. The model covers these parts:

- the query engine `handleSearch`: exact-name mode, the Fuse fuzzy branch, the substring
  fallback and the category restriction;
- the grouping and key sorting done in `displayResults`;
- the category list built by `populateFilterDropdown`;
- the autocomplete suggestions of `showAutocomplete`;
- the favorites store (`getFavorites`, `toggleFavorite`, `isFavorite`);
- the cache store (`getCachedDatabase`, `setCachedDatabase`) and the cache-or-fetch
  decision at the start of `loadDatabase`;
- the URL attribute sanitiser `sanitizeURLForAttr`.

Modules, one per concern:

- `Wrappers`: `Option`, used where the source has `null`, `undefined` or a failed parse.
- `Strings`: `toLowerCase` (ASCII letters only), `trim` (the ECMAScript white-space and
  line-terminator set), `startsWith`, `includes`.
- `Numbers`: `String(n)` for integers and `parseInt(s, 10)`.
- `Ordering`: the default string order of `Array.prototype.sort`. Insertion sort is the
  reference definition; `SortedPermutationsEqual` shows that any correct sort gives the
  same array.
- `Seqs`: `Array.prototype.filter`, with membership, multiplicity and order facts.
- `Records`: the record type with optional fields. An ID is a string or a number, and
  `String(id)` is `IdString`.
- `Json`: the text stored in `localStorage`. It stands in for `JSON.stringify` and
  `JSON.parse`, and decoding is proved to invert encoding.
- `Storage`: `localStorage` as a class holding a `map<string, string>`.
- `Favorites`, `Cache`, `Loader`: the two stores and the load decision. Their methods
  read and write the `LocalStorage` object.
- `Search`: `handleSearch`, the category list and autocomplete, as functions.
- `Grouping`: the grouping `reduce`, as a method with a loop over an accumulator map.
- `Sanitize`: `sanitizeURLForAttr`.
- `Scenarios`: two worked examples on a three-record catalog.

Behaviours of the code that a reader might not expect, all modelled as written:

- Exact mode lowercases the record's `Name` but does not trim it
  (`Search.ExactIgnoresPaddedNames`).
- The cache test is `age < 30 min` with no lower bound, so a timestamp in the future
  still counts as a hit (`Cache.ReadAfterWrite`).
- A cached empty list is a hit, because `[]` is truthy (`Loader.FetchOnlyOnMiss`).
- The grouping accumulator is a plain object literal `{}`. A `Medientyp` that names a
  property inherited from `Object.prototype` (`constructor`, `toString`, `__proto__`, ...)
  passes the `if (!acc[key])` guard, so no list is created and `push` throws a
  `TypeError`. `Grouping.GroupResults` returns `None` exactly then.
- A record whose `Medientyp` is literally `Sonstige` shares its group with the records
  that have no category (`Records.OtherGroupMembers`).

## Model

| member | source | states |
|---|---|---|
| `Strings.Trim` | script.js:260 | the trimmed term is no longer than the input and has no white space at either end |
| `Strings.TrimRemovesOnlyPadding` | script.js:260 | the trimmed term is a slice of the input with only white space before and after it |
| `Strings.Lower` | script.js:260 | `toLowerCase` keeps the length, maps each character by the ASCII fold, leaves no upper-case ASCII letter and changes nothing else |
| `Strings.ContainsIff` | script.js:284-286 | `includes` holds exactly when the term occurs as a slice at some position |
| `Strings.LowerTrimCommute` | script.js:32 | lowercasing then trimming (the sanitiser's order) equals trimming then lowercasing (the search term's order) |
| `Strings.TrimIgnoresPadding` | script.js:32 | white space in front of a string does not change its trimmed form |
| `Strings.TrimIdempotent` | script.js:260 | trimming twice is trimming once |
| `Numbers.IntToString` | script.js:167 | `String(n)` is a non-empty run of digits, after a minus sign when `n` is negative |
| `Numbers.ParseInt` | script.js:153 | `parseInt(s, 10)` is NaN for a blank string and the digits' value for a string of digits |
| `Numbers.ParseIntOfIntToString` | script.js:153-167 | `parseInt(String(n), 10)` is `n`, so the written timestamp reads back unchanged |
| `Numbers.IntToStringInjective` | script.js:121 | distinct numeric IDs have distinct `String(id)` texts |
| `Numbers.DigitPrefix` | script.js:153 | `parseInt` reads the longest run of leading digits |
| `Json.DecodeEncodeStrings` | script.js:109-116 | parsing the stringified favorites list returns the same list |
| `Json.DecodeEncodeDataset` | script.js:155-166 | parsing the stringified dataset returns the same records in the same order |
| `Ordering.SortSorted` | script.js:249 | the sorted array is in non-decreasing string order |
| `Ordering.Sort` | script.js:249 | sorting returns a permutation of its input |
| `Ordering.SortedPermutationsEqual` | script.js:318 | two sorted permutations of one list are equal, so the key order does not depend on the sort algorithm |
| `Ordering.SortDistinct` | script.js:248-249 | sorting a list without duplicates gives a strictly increasing list |
| `Seqs.FilterCount` | script.js:270-292 | `filter` keeps every copy of a passing element and drops every copy of a failing one |
| `Seqs.FilterSubseq` | script.js:270-292 | `filter` keeps the input's relative order |
| `Seqs.FilterMembers` | script.js:270-292 | an element is in the filtered list iff it is in the input and passes |
| `Records.IdString` | script.js:121 | `String(id)` is the text of a text ID, and for a numeric ID a text that `parseInt` reads back as the same number |
| `Records.OtherGroupMembers` | script.js:312 | a record is in the `Sonstige` group iff its `Medientyp` is missing, empty or literally `Sonstige` |
| `Storage.LocalStorage.GetItem` | script.js:149-150 | `getItem` returns the stored value, or null for a missing key |
| `Storage.LocalStorage.SetItem` | script.js:166-167 | `setItem` overwrites one key and leaves the others alone |
| `Favorites.GetFavorites` | script.js:107-113 | returns the stored list, or `[]` when the key is missing or its value does not parse |
| `Favorites.SaveFavorites` | script.js:115-117 | writes the stringified list under `favorites` and changes nothing else |
| `Favorites.Toggled` | script.js:122-127 | the toggled list has one copy fewer of a present ID, the rest in order, or the old list followed by an absent ID |
| `Favorites.AfterToggle` | script.js:119-130 | the store after a toggle reads back the toggled list under `favorites` and keeps every other key |
| `Favorites.FirstIndex` | script.js:122 | the first position of the ID: it holds the ID and no earlier position does |
| `Favorites.IndexOf` | script.js:122 | the loop returns the first position of the ID, or -1 when it is absent |
| `Favorites.ToggleFavorite` | script.js:119-132 | writes back the list with the first copy spliced out or the ID pushed; returns the new `isFavorite` |
| `Favorites.IsFavorite` | script.js:134-136 | true iff `String(id)` is in the stored list |
| `Favorites.MissingOrBrokenIsEmpty` | script.js:107-113 | a missing or unparseable entry reads as `[]` |
| `Favorites.FavoritesAfterSave` | script.js:109-116 | the saved list is what the next read returns |
| `Favorites.ToggledFlips` | script.js:122-129 | on a list without duplicates, a toggle flips the ID's membership |
| `Favorites.ToggledKeepsOthers` | script.js:122-129 | a toggle leaves the membership of every other ID unchanged |
| `Favorites.ToggledNoDup` | script.js:122-129 | a toggle never creates a duplicate |
| `Favorites.ToggleTwiceAbsent` | script.js:119-131 | adding an absent ID and toggling it again restores the exact list |
| `Favorites.ToggleFlipsStore` | script.js:119-131 | on the store, the state after a toggle is the opposite of the state before |
| `Favorites.ToggleTwiceStore` | script.js:119-131 | two toggles of one ID restore its favorite state |
| `Favorites.ToggleFrame` | script.js:119-131 | a toggle changes no other ID's state and no other key, and keeps the list free of duplicates |
| `Favorites.ToggleKeepsOtherNumbers` | script.js:119-135 | toggling one numeric ID leaves the state of every other number unchanged |
| `Favorites.NumericAndTextIdsAgree` | script.js:121-135 | a numeric ID and its decimal text are the same favorite |
| `Cache.CachedIn` | script.js:147-162 | a hit needs both keys, a parseable timestamp younger than 30 min and parseable data, and returns that data |
| `Cache.GetCachedDatabase` | script.js:147-162 | the read returns the data when both entries are present and non-empty, the age is below `CACHE_DURATION_MS` and the data parses; otherwise null |
| `Cache.SetCachedDatabase` | script.js:164-171 | writes the stringified data and `String(now)` under the two cache keys |
| `Cache.MissWithoutEntries` | script.js:149-152 | without either key every read misses |
| `Cache.ReadAfterWrite` | script.js:147-171 | a write at time t read at time now returns the written data iff `now - t < 30*60*1000`, and otherwise null |
| `Cache.WriteFrame` | script.js:164-171 | a cache write touches no other key |
| `Loader.PlanDatabaseLoad` | script.js:186-204 | the load refuses a missing or non-HTTPS endpoint, uses a cache hit, and otherwise fetches |
| `Loader.FetchOnlyOnMiss` | script.js:192-204 | with a valid endpoint the network is used iff the cache misses |
| `Loader.NoFetchWithinTtl` | script.js:192-217 | after a cache write, loads are served from the cache for 30 minutes and fetch afterwards |
| `Search.QueryTerm` | script.js:260 | the term is no longer than the input, has no white space at either end and no upper-case ASCII letter |
| `Search.QueryTermIdempotent` | script.js:260 | normalising a normalised term changes nothing |
| `Search.Candidates` | script.js:265-289 | the text branches: the whole database for an empty term, otherwise an order-preserving subsequence of name matches (exact) or of name/description/URL matches (no index) |
| `Search.RestrictCategory` | script.js:291-293 | the restriction keeps an order-preserving subsequence, all of the chosen category when it is switched on with a category |
| `Search.HandleSearch` | script.js:259-293 | the result is an order-preserving subsequence of the database (outside the fuzzy branch); with a category set, every result has that `Medientyp` |
| `Search.EmptyQueryShowsAll` | script.js:265-267 | a blank query with no category restriction gives the whole database, in order |
| `Search.EmptyQueryWithCategory` | script.js:265-293 | a blank query with a category gives exactly that category's records, with their multiplicities, in database order |
| `Search.ExactMode` | script.js:268-273 | exact mode keeps exactly the records whose lowercased name (missing = '') equals the term, in order |
| `Search.FuzzyHitsPassedOn` | script.js:274-277 | with an index, the index's hits are the result, unchanged |
| `Search.SubstringMode` | script.js:278-287 | without an index, a record is kept iff its lowercased name, description or URL contains the term, in order |
| `Search.CategoryRestriction` | script.js:291-293 | the restriction applies only when switched on with a category set; it then keeps exactly the candidates whose raw `Medientyp` equals the category, in order |
| `Search.ExactIgnoresPaddedNames` | script.js:260-272 | a name with white space at either end never matches in exact mode |
| `Search.GroupKeyMatchesCategory` | script.js:312 | for a category other than '' and `Sonstige`, a record's group key is that category iff the filter selects the record by it |
| `Search.Categories` | script.js:248 | a value is listed iff some record has it as a non-empty `Medientyp` |
| `Search.Distinct` | script.js:248 | the `Set` keeps one copy of every element and nothing else |
| `Search.CategoryList` | script.js:247-249 | the drop-down list is strictly sorted and holds exactly the non-empty categories present |
| `Search.Autocomplete` | script.js:445-449 | a term shorter than 2 characters, or an empty database, gives no suggestions |
| `Search.AutocompleteFallback` | script.js:456-461 | without an index: at most 8 suggestions, the first matches whose lowercased name contains the lowercased term, in database order |
| `Grouping.AddItemPushes` | script.js:312-314 | the callback appends the item to its key's list, creating the list for a new key, and leaves every other list alone |
| `Grouping.GroupFoldWellFormed` | script.js:311-316 | every list the reduce builds is non-empty and holds only records of its own key |
| `Grouping.PushItem` | script.js:313-314 | one callback step for a key that is not inherited: the accumulator grows by `AddItem` and the key list stays the accumulator's keys, once each |
| `Grouping.GroupResults` | script.js:311-318 | fails (the `TypeError`) iff some group key names an `Object.prototype` property; otherwise the accumulator is one list per key that occurs, the keys are sorted and unique, and the groups laid out in key order are a permutation of the input |
| `Grouping.GroupedSnoc` | script.js:311-316 | each step of the reduce appends the item to its own group and changes no other group |
| `Grouping.GroupFoldIsGrouped` | script.js:311-316 | the left-to-right reduce builds, for each key that occurs, exactly the list of that key's records in input order |
| `Grouping.FlattenPermutation` | script.js:318-328 | the groups listed in any order of their keys contain every input item exactly as often as the input |
| `Grouping.ExactlyOneGroup` | script.js:311-316 | every item is in its own key's group and in no other; each group keeps input order |
| `Grouping.GroupIsCategory` | script.js:311-316 | for a category other than `Sonstige`, its group holds exactly the records the category filter keeps, in the same order |
| `Grouping.GroupingIdempotent` | script.js:311-318 | grouping the flattened groups again gives the same groups |
| `Sanitize.IsBlocked` | script.js:32-33 | the URL is refused iff its trimmed, lowercased form starts with `javascript:`, `data:` or `vbscript:` |
| `Sanitize.SanitizeUrlForAttr` | script.js:29-38 | an empty URL, or one whose lowercased trimmed form starts with `javascript:`, `data:` or `vbscript:`, gives ''; the result never contains a quote |
| `Sanitize.ReplaceAll` | script.js:37 | `replace(/c/g, rep)` leaves a string without `c` unchanged, and no `c` survives when `rep` holds none |
| `Sanitize.ReplaceAllAppend` | script.js:37 | the global replacement of one character distributes over concatenation |
| `Sanitize.ReplaceAllChar` | script.js:37 | on one character, the replacement gives `rep` for `c` and the character itself otherwise |
| `Sanitize.EscapeQuotes` | script.js:37 | no single or double quote survives the two replacements, and a string without quotes is unchanged |
| `Sanitize.EscapeQuotesSpec` | script.js:37 | the escaping distributes over concatenation and maps `'` to `%27`, `"` to `%22` and every other character to itself |
| `Sanitize.BlockedIgnoresCaseAndPadding` | script.js:32-33 | upper case and leading white space cannot get a URL past the scheme check |
| `Scenarios.GameCategoryOnly` | script.js:265-293 | on a three-record catalog, category "Game" with an empty query gives only the third record |
| `Scenarios.PaddedAlpTerm` | script.js:260 | the query "  Alp " becomes the term "alp" |
| `Scenarios.AlpFindsAlpha` | script.js:259-312 | without an index, the query "  Alp " finds "Alpha", which is grouped under "Tool" |

## Left out

- Fuse.js (`initFuseSearch` and the fuzzy branches of `handleSearch` and `showAutocomplete`) is a foreign library with scoring and thresholds that are not visible here. Its answer for the current term enters as an `Option` parameter (`None` = no index), and the model passes it on unchanged. The model does not check that the caller's answer belongs to the same term and database, or that an index exists only for a non-empty database.
- `loadDatabase` beyond its opening decision: the fetch, the `await` steps, the `data.error` check, the `finally` that hides the overlay, and the toasts. These are asynchronous network and DOM work.
- `debounce`, `showToast`, the HTTPS redirect, `switchView`, `showDetails`, card and thumbnail HTML, `preloadImage`, `sanitizeHTML`, scroll handling in `sessionStorage`, and the event listeners. These are timers, DOM and browser plumbing.
- `Strings.Lower` folds ASCII letters only. `toLowerCase` also folds non-ASCII letters, some of them into several characters.
- Dafny characters are Unicode scalar values. JavaScript strings are UTF-16 code units, so `length` and sort order differ from the model's for characters outside the Basic Multilingual Plane.
- `Json`: the stored text format stands in for `JSON.stringify` and `JSON.parse`. Parsing accepts exactly what the encoder writes and fails on anything else. A stored value that is valid JSON but not an array of strings reads as `[]` in the model. The source agrees for a falsy value (`0`, `false`, `null`, `""`), but returns a truthy non-array value as it is. For a JSON string, `isFavorite` then tests for a substring (`"12"` stored makes `isFavorite(1)` true) and `toggleFavorite` throws at `splice` or `push`. For a number, `true` or an object, both throw, since the value has no `includes` or `indexOf`. An array holding numbers is returned as it is, and its numbers never equal `String(id)`.
- A record's ID is a string or an integer. Non-integral numbers and other JSON types for `ID` or for the optional fields are not modelled; every optional field is a string or missing.
- `Numbers.IntToString`: integers are unbounded, while `item.ID` and `Date.now()` are JavaScript numbers. `String(n)` switches to exponent notation from 10^21 on (`"1e+21"`), and integers above 2^53 are not exact. `Records.IdString`, `Numbers.ParseIntOfIntToString`, `Numbers.IntToStringInjective`, `Favorites.NumericAndTextIdsAgree` and `Favorites.ToggleKeepsOtherNumbers` therefore describe the source only for IDs below those magnitudes. Timestamps from `Date.now()` are far below them.
- `Storage.LocalStorage.SetItem`: always succeeds. A quota failure, which `setCachedDatabase` swallows, is not modelled. If the second `setItem` failed, the source would keep new data beside an old timestamp.
- `Favorites.ToggledFlips`, `Favorites.ToggleFlipsStore` and `Favorites.ToggleTwiceStore` assume a stored list without duplicates. Toggles never create duplicates (`Favorites.ToggledNoDup`), but a hand-edited store can hold them. On such a store, a toggle removes only the first copy and the ID stays a favorite.
- `Date.now()` is the `now` parameter. The `console.warn` in the cache's `catch` blocks is not modelled.
