# Country browser: a verified model of its list pipeline, search box and debounce

The country browser loads every country from the REST Countries service once, then lets the user
search by name and sort by name or population. It shows the result as a grid of cards whose row
width follows the viewport. This project models the logic behind that view in Dafny:

- **The derived list** (`src/App.tsx`), in module `CountryView`. The list is filtered
  case-insensitively on `name.common` by the debounced search term, then stable-sorted by one of four
  options. The grid's column count is a step function of the viewport width. The sorted list is cut
  into rows of that many cards by a loop.
- **The load guard** (`src/App.tsx`), class `CountryLoader.Loader`. A one-shot `hasFetched` flag
  stops a repeated mount from starting a second request. `handleRetry` clears the flag and fetches
  again. The request is abstract: each load is split into the synchronous part that starts it and
  the continuation that runs when the request settles with a `FetchOutcome`.
- **The search box** (`src/components/SearchBar.tsx`), module `SearchBar`. It holds the
  autocomplete list: names that contain the raw term without being equal to it, ignoring case, at
  most eight. Class `SearchBox` holds the `isOpen` / `selectedIndex` state that keys, typing, clicks
  and focus change.
- **The debounce hook** (`src/hooks/useDebounce.ts`), module `Debounce`. It is an event machine:
  a `Step` function over a `State` that holds the output, the effect's dependencies and the
  browser's table of scheduled timers. Class `Debouncer` has `Change`, `Fire` and `Teardown` methods,
  each proved to perform exactly `Step`.

Supporting modules: `CountryTypes` (the record shapes of `src/types/country.ts`), `Text` (an ASCII
`toLowerCase` and `includes`), `Seqs` (order-preserving `filter` and concatenation) and `StableSort`
(a generic stable sort with its correctness and uniqueness lemmas).

Design points:

- `localeCompare` is a parameter `lc: (string, string) -> int`. The ordering lemmas assume only
  `LocaleOrder(lc)`: "`lc(a, b) <= 0`" is total and transitive.
- `Array.prototype.sort` is stable, but the engine's algorithm is not visible. The model sorts by
  insertion. `StableSort.StableSortIsUnique` and `CountryView.AnyStableSortAgrees` prove that every
  sorted, stable rearrangement of the filtered list is exactly the model's result. So the choice of
  algorithm does not matter.
- Sequences are values, so the sort cannot change the loaded `countries`. The source gets the same
  guarantee by sorting the copy `[...filtered]`.
- Mount failures and retry failures produce different messages, as in the code. At mount the message
  is the error's `message`, or "An unexpected error occurred" when the thrown value is not an
  `Error`. On retry it is `err.message` whatever was thrown. A non-`Error` value with a string
  `message` shows that message. A value without one gives `undefined`, which shows no error. For
  `null` or `undefined`, reading `message` throws inside the handler, so the error stays cleared.
  `src/services/api.ts` always throws an `Error`, and for an `Error` both paths agree.
- `handleInputChange` opens the list for every non-empty value, even when nothing matches (the
  dropdown then renders nothing). The model follows the code.
- Both click handlers in the search box end by focusing the input. Pressing the mouse on a
  suggestion or on the clear button has taken focus off the input, so this runs the input's
  `onFocus` inside the click handler. That `onFocus` belongs to the render in which the click
  happened, so it sees the term from before the click. When that term is non-empty, the list
  reopens. A suggestion click therefore leaves the list open on the names that extend the chosen
  one. The clear button is only shown for a non-empty term, so after it the list is always open,
  offering the first eight names.
- The clear button does not reset `selectedIndex`. `SearchBar.EmptyTermOffersMost` shows that the
  index still points into the list, because the empty term offers at least as many names as any
  other term.

## Model

| member | source | states |
|---|---|---|
| `CountryView.FilterByName` | src/App.tsx:58-60 | a country is kept iff it is in the list and its lower-cased common name contains the lower-cased term |
| `CountryView.FilteredInSourceOrder` | src/App.tsx:58-60 | the filtered list is the list's elements at exactly the matching positions, in increasing position order |
| `CountryView.EmptyTermKeepsAll` | src/App.tsx:58-60 | the empty term keeps every country, in order |
| `CountryView.FilterAndSort` | src/App.tsx:56-79 | the result is a permutation of the filtered list; its members are exactly the matching countries |
| `CountryView.Compare` | src/App.tsx:63-76 | the population orders rank a country first iff its population is no larger (ascending) or no smaller (descending); the comparator is 0 exactly on equal populations |
| `CountryView.PrecedesIsTotalPreorder` | src/App.tsx:63-76 | each option's comparator is a total preorder on countries (given `lc` is one on names) |
| `CountryView.FilterAndSortOrdered` | src/App.tsx:64-72 | name-asc is non-decreasing under `lc`, name-desc non-increasing; population-asc populations are non-decreasing, population-desc non-increasing |
| `CountryView.FilterAndSortStable` | src/App.tsx:63 | countries the comparator ranks equal keep their filtered-list order |
| `CountryView.PopulationTiesKeepOrder` | src/App.tsx:69-72 | under a population order, the countries of each population appear as in the filtered list |
| `CountryView.AnyStableSortAgrees` | src/App.tsx:63 | every sorted, stable rearrangement of the filtered list equals `FilterAndSort`'s result |
| `CountryView.SearchGByPopulation` | src/App.tsx:56-79 | Germany, Greece, France searched for "g" by ascending population gives Greece, Germany |
| `CountryView.ColumnCount` | src/App.tsx:99-106 | result in [1, 4]; 4 without a window; 1 iff width < 640, 2 iff 640 <= width < 1024, 3 iff 1024 <= width < 1280, 4 iff width >= 1280 |
| `CountryView.ColumnCountMonotone` | src/App.tsx:102-105 | a wider viewport never has fewer columns |
| `CountryView.ColumnCountSteps` | src/App.tsx:102-105 | the column count changes exactly at widths 640, 1024 and 1280 |
| `CountryView.GroupRows` | src/App.tsx:118-124 | the rows concatenate back to the list; there are ceil(n / columnCount) of them; each is non-empty and at most columnCount long, all but the last exactly columnCount |
| `CountryView.DeriveRows` | src/App.tsx:117-124 | the rendered rows concatenate to the filtered, sorted list and have ColumnCount(viewport) cards, except possibly the last |
| `StableSort.SortBy` | src/App.tsx:63 | the sort returns a permutation of its input |
| `StableSort.SortBySorted` | src/App.tsx:63 | the sort's result is ordered by the comparison |
| `StableSort.SortByStable` | src/App.tsx:63 | every class of equal elements keeps its input order |
| `StableSort.StableSortIsUnique` | src/App.tsx:63 | a sorted, stable rearrangement of the input is unique |
| `Seqs.FilterKeepsOrder` | src/App.tsx:58 | `filter` keeps exactly the positions whose elements satisfy the predicate, in order |
| `Text.ContainsAt` | src/App.tsx:59 | `includes` holds iff the term occurs at some position |
| `CountryLoader.Loader.constructor` | src/App.tsx:17-19 | initially no countries, loading, no error, guard clear |
| `CountryLoader.Loader.Mount` | src/App.tsx:34-42 | a load starts iff the guard was clear; the guard is then set; a started load shows loading with no error; a skipped mount changes nothing |
| `CountryLoader.Loader.SettleMount` | src/App.tsx:43-49 | loading ends false; success replaces the countries; failure keeps them and sets the error's message or the fixed fallback |
| `CountryLoader.Loader.Retry` | src/App.tsx:82-88 | clears the guard, sets loading, clears the error, keeps the countries |
| `CountryLoader.Loader.SettleRetry` | src/App.tsx:89-92 | loading ends false; success replaces the countries; failure sets `RetryMessage` of what was thrown |
| `CountryLoader.RetryMessage` | src/App.tsx:91 | for an `Error` the retry shows the same message as the mount-time load (src/App.tsx:46); for `null` / `undefined` none; for another value its own `message` property, if any |
| `CountryLoader.StartupScenario` | src/App.tsx:34-53 | two mounts start one load; a failed load shows its message; a retry (src/App.tsx:82-93) that succeeds shows the data, with no error and loading over |
| `SearchBar.Suggestions` | src/components/SearchBar.tsx:51-56 | at most 8; a prefix of the matching names, of length min(8, matches); every suggestion is a name that contains the term but is not equal to it, ignoring case |
| `SearchBar.SuggestionsInSourceOrder` | src/components/SearchBar.tsx:51-56 | the suggestions are names from increasing positions of the list: the first matching ones |
| `SearchBar.EmptyTermOffersMost` | src/components/SearchBar.tsx:51-56 | the empty term yields at least as many suggestions as any term |
| `SearchBar.SearchBox.constructor` | src/components/SearchBar.tsx:45-46 | closed, nothing selected |
| `SearchBar.SearchBox.KeyDown` | src/components/SearchBar.tsx:71-104 | closed or empty list: only ArrowDown with a term acts (opens); ArrowDown moves the selection down to len-1; ArrowUp moves it to -1; Enter on a selection commits it, closes and resets; Enter with none does nothing; Escape closes and resets; the selection stays in [-1, len-1] |
| `SearchBar.SearchBox.InputChange` | src/components/SearchBar.tsx:106-110 | the term becomes the value, the list is open iff the value is non-empty, the selection resets |
| `SearchBar.SearchBox.SuggestionClick` | src/components/SearchBar.tsx:112-117 | commits the suggestion and resets the selection; the nested focus (src/components/SearchBar.tsx:141) leaves the list open iff the term before the click was non-empty |
| `SearchBar.SearchBox.ClearButton` | src/components/SearchBar.tsx:147-153 | empties the term; the nested focus leaves the list open iff the term before the click was non-empty; the selection is unchanged and still valid |
| `SearchBar.SearchBox.Focus` | src/components/SearchBar.tsx:141 | opens the list iff there is a term |
| `SearchBar.SearchBox.ClickOutside` | src/components/SearchBar.tsx:59-64 | closes the list, nothing else |
| `SearchBar.KeyboardScenario` | src/components/SearchBar.tsx:71-110 | typing "an" over France, Germany, Japan, Spain, then ArrowDown and Enter, commits "France", closes the list and clears the selection |
| `SearchBar.ClickScenario` | src/components/SearchBar.tsx:106-117 | typing "nig" over Niger, Nigeria and clicking "Niger" commits it, and the list stays open offering only "Nigeria" |
| `SearchBar.SearchBox.ParentClear` | src/App.tsx:234-236 | the parent's "Clear search" empties the term only, and the selection stays valid |
| `Debounce.Step` | src/hooks/useDebounce.ts:13-23 | keeps the invariant; a change of value or delay leaves only the new timer, holding the new value; a firing timer sets the output to its value and leaves none pending; only a firing changes the output; teardown clears the timer |
| `Debounce.AtMostOneTimer` | src/hooks/useDebounce.ts:13-23 | at most one timer is pending |
| `Debounce.RunKeepsInv` | src/hooks/useDebounce.ts:13-23 | every run of events keeps the invariant |
| `Debounce.ValuesWereSupplied` | src/hooks/useDebounce.ts:11-17 | the output and every pending timer's value are the initial value or a supplied one |
| `Debounce.OutputWasSupplied` | src/hooks/useDebounce.ts:11-16 | the output is always the initial value or some value supplied as input |
| `Debounce.NothingAfterTeardown` | src/hooks/useDebounce.ts:20-22 | after teardown no event changes the output, and no timer is pending |
| `Debounce.BurstHoldsOutput` | src/hooks/useDebounce.ts:13-22 | during a burst of changes less than `delay` apart the output does not change, and only the last change's timer is pending |
| `Debounce.BurstSettles` | src/hooks/useDebounce.ts:15-17 | after a burst nothing fires before last change + delay; at that time the pending timer sets the output to the last value |
| `Debounce.TypingScenario` | src/hooks/useDebounce.ts:10-26 | "g", "ge", "ger" typed 100 ms apart with delay 300 update the output once, to "ger", at 600 ms and not at 599 ms |
| `Debounce.Debouncer.constructor` | src/hooks/useDebounce.ts:11-17 | the output starts as the input; the first effect run schedules one timer |
| `Debounce.Debouncer.Change` | src/hooks/useDebounce.ts:13-23 | performs `Step` for a change: the output is unchanged; when value or delay changed, the old timer is cleared and the only pending timer is the new one |
| `Debounce.Debouncer.Fire` | src/hooks/useDebounce.ts:15-17 | performs `Step` for a firing: an expired pending timer copies its value to the output and leaves no timer pending |
| `Debounce.Debouncer.Teardown` | src/hooks/useDebounce.ts:20-22 | performs `Step` for teardown: no timer pending, unmounted, output unchanged |

## Left out

- Virtual scrolling (`useVirtualizer`, src/App.tsx:127-132): its code is in `@tanstack/react-virtual`, which is not part of this model. The model does not state that its `count` is the row count.
- The network request (`fetchAllCountries`, src/services/api.ts): it is HTTP and JSON parsing. It appears only as the `FetchOutcome` handed to the settle methods.
- The JSX markup and the presentational components (CountryCard, SortControls, ErrorMessage, Loading): they hold no logic beyond display fallbacks and number formatting.
- `HighlightText` (src/components/SearchBar.tsx:13-35): it builds a regular expression from user input, and the regular-expression engine is not modelled.
- Event subscription (the resize listener at src/App.tsx:111-115, the mousedown listener at src/components/SearchBar.tsx:59-68): only their effects are modelled, as a call to `ColumnCount` and as `SearchBox.ClickOutside`.
- SearchBar.SearchBox.Focus: the model does not track whether the input has focus. A `Focus` event stands for a focus event the browser delivers, meaning the input was not already focused. Escape's `blur()` has no handler, so it changes no modelled state. The click handlers assume the mouse press took focus off the input, so their `focus()` delivers `onFocus`.
- `countryNames` (src/App.tsx:27-30): `SearchBox.names` stands for `countries.map(c => c.name.common)`. It is a constant, because the search box is only mounted while the list is loaded and unchanged.
- Locale-aware collation: `localeCompare` is an abstract comparison (`LocaleOrder`). No ICU rules are modelled, and neither is an inconsistent comparator.
- Text.ToLower: lower-cases only the ASCII letters A-Z. `toLowerCase` also maps other Unicode letters, some of which change the string's length.
- React scheduling (batching, the StrictMode double mount, render timing): the guard and the hook are sequential machines. Each state update takes effect before the next event.
- CountryLoader.Thrown: a thrown value's `message` property is modelled only when it is a string. Other property values are left out.
- CountryLoader.Loader.SettleMount: nothing in the model stops a settle without a load in flight. The source never produces that order.
- Debounce.Step: the delay is a `nat`. Browsers treat negative delays as 0 and fire delays above 2^31-1 almost at once; neither case is modelled. Timers fire when the browser delivers them at or after their deadline (`Fire` events), not on a real clock.
- CountryView.GroupRows: requires `columnCount >= 1`. The source loop would never end with 0, but `ColumnCount` never returns 0.
- The comparator's `default: return 0` (src/App.tsx:73-74) cannot be reached, because `SortOption` has exactly the four options.
- src/types/country.ts contains only type declarations. It shapes `CountryTypes.Country`, and there is nothing to prove about it.
