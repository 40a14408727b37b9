# User directory viewer: a Dafny model of its view logic

The page fetches a list of user records and shows them as cards. A search box and a city drop-down
narrow the cards down. Each card has a "View Details" button that opens and closes its own
details panel. A dark-mode button switches the page's colours and remembers the choice in local
storage. This project models the parts of `script.js` that compute something:

- `filterUsers`: the records whose lowercased name or username contains the lowercased search
  text and, if a city is selected, whose city is exactly that city. Records keep their order
  (module `UserFilter`, on top of `Text` for `toLowerCase` and `includes`).
- The city index: `processUserData` adds every user's city to a Set that is never cleared, and
  `populatefilters` turns that Set into a sorted list of options (modules `Directory` and
  `CityOrder`).
- The two toggles: each card's details panel and label, and the dark-mode flag with its label and
  its stored preference (module `Toggles`).

Design choices:

- A JavaScript `Set` iterates in insertion order. So the `cities` Set is a duplicate-free
  `seq<string>` field, `Directory.cityOrder`, and `Cities()` gives its members as a set.
- The page's module-level `users` and `cities` become fields of one `Directory` object.
- `sort()` without a comparator is modelled as an insertion sort, `CityOrder.Sort`. It compares
  strings character by character, and a proper prefix sorts first.
- `localStorage.getItem` returns `null` when the item is absent. That becomes `Option<string>`.
  `setItem` with a boolean stores the string `"true"` or `"false"`.

The city Set is never reset. `cities` is created once (`script.js:14`) and only ever added to
(`script.js:49-53`), so after a second fetch it still holds the first fetch's cities.
`Directory.ProcessUserData` and `Directory.ReceiveUsers` model that growth.

## Model

| member | source | states |
|---|---|---|
| `Text.ToLower` | script.js:165 | the lowercased string has the same length, folds each position on its own, and contains no ASCII capital |
| `Text.Includes` | script.js:168 | `s.includes(t)` holds exactly when `t` occurs in `s` at some index (`Occurs`), with the empty string occurring everywhere |
| `Text.EmptyIncluded` | script.js:168 | every string includes the empty string |
| `UserFilter.FilterUsers` | script.js:164-171 | a record is in the view iff it is in `users` and passes both the search predicate and the city predicate; its order is stated by `FilterIsSubsequence` |
| `UserFilter.MatchesSearch` | script.js:168 | a record matches iff the lowercased search text occurs in its lowercased name or in its lowercased username |
| `UserFilter.MatchesCity` | script.js:169 | a record matches iff no city is selected (the empty string) or its city is exactly the selected one |
| `UserFilter.FilterBy` | script.js:167 | `Array.prototype.filter` returns no more elements than it was given, and every one it returns is accepted by the predicate |
| `UserFilter.FilterIsSubsequence` | script.js:167-171 | the view is `users` restricted to an increasing list of positions, and a position is on that list iff its record passes both predicates, so order is kept |
| `UserFilter.FilterSearchSound` | script.js:165-168 | every record in the view has the lowercased search text occurring in its lowercased name or its lowercased username |
| `UserFilter.FilterCitySound` | script.js:166-169 | when a city is selected, every record in the view has exactly that city |
| `UserFilter.FilterComplete` | script.js:167-171 | every record of `users` that matches the search and, when one is selected, the city is in the view |
| `UserFilter.EmptySearchMatches` | script.js:168 | empty search text matches every record |
| `UserFilter.FilterNothingSelected` | script.js:168-170 | with empty search text and no city, the view is `users` unchanged |
| `UserFilter.FilterSearchThenCity` | script.js:167-171 | the combined view equals the search-only view filtered again by city alone |
| `UserFilter.FilterCityThenSearch` | script.js:167-171 | the combined view equals the city-only view filtered again by search alone |
| `UserFilter.FilterIsIntersection` | script.js:167-171 | a record is in the combined view iff it is in both the search-only view and the city-only view |
| `UserFilter.PositionsExact` | script.js:167 | a position is among the filter's positions iff the predicate accepts its element |
| `UserFilter.PositionsSelect` | script.js:167 | `Array.prototype.filter` returns, in order, exactly the elements at those positions |
| `UserFilter.FilterByMembers` | script.js:167 | an element is in a filter's result iff it is in the input and the predicate accepts it |
| `CityOrder.Below` | script.js:57 | the default sort order never ranks a string before itself, and a proper prefix sorts before the longer string |
| `CityOrder.BelowTotal` | script.js:57 | the default sort order ranks any two different strings one way or the other |
| `CityOrder.BelowTransitive` | script.js:57 | the default sort order is transitive |
| `CityOrder.Insert` | script.js:57 | inserting adds exactly one copy of the string and keeps a strictly increasing list strictly increasing |
| `CityOrder.Sort` | script.js:57 | sorting is a permutation, and a duplicate-free input comes out strictly increasing |
| `CityOrder.SortedCities` | script.js:57 | the sorted cities are strictly increasing and have exactly the members and the length of the Set |
| `Records.CitiesOf` | script.js:50-51 | the cities of a user list contain every user's city and nothing else |
| `Directory.Directory.Cities` | script.js:14 | the members of the `cities` Set are exactly the strings of its insertion-ordered list |
| `Directory.Directory.constructor` | script.js:13-14 | the page starts with no users and an empty city Set |
| `Directory.Directory.ProcessUserData` | script.js:49-53 | afterwards the Set holds its old cities plus every user's city, with no duplicates and the old insertion order as a prefix |
| `Directory.Directory.ReceiveUsers` | script.js:35-36 | a fetched array replaces `users`, and the Set grows by its cities without losing any |
| `Directory.Directory.PopulateFilters` | script.js:55-57 | the options are the sort of the Set's iteration order; they are strictly increasing and have exactly the Set's members |
| `Toggles.DetailsLabel` | script.js:159 | the label is "Hide Details" iff the panel is shown, "View Details" iff it is not |
| `Toggles.DetailsCard.constructor` | script.js:112-119 | a rendered card has its panel collapsed, its button inactive and the label "View Details" |
| `Toggles.DetailsCard.Activate` | script.js:153-160 | a click flips `show` and `active` and sets the label from the new `show` state |
| `Toggles.ActivateTwice` | script.js:153-160 | two clicks return a card to its previous panel state, button state and label |
| `Toggles.ActivateOne` | script.js:152-160 | a click flips its own card's panel and leaves every other card's panel and label unchanged |
| `Toggles.ModeLabel` | script.js:195 | the dark-mode button reads "Light Mode" iff the page is dark, "Dark Mode" iff it is not |
| `Toggles.StoredText` | script.js:197 | the stored preference is "true" iff dark, "false" iff not |
| `Toggles.StartsDark` | script.js:200 | startup is dark iff the stored item is present and is exactly "true" |
| `Toggles.PreferenceRoundTrip` | script.js:197-200 | reading back what a click stored gives the same mode |
| `Toggles.DarkModeToggle.Startup` | script.js:199-203 | startup mode follows the stored item; the label becomes "Light Mode" only in dark mode and otherwise keeps the page's text |
| `Toggles.DarkModeToggle.Activate` | script.js:192-198 | a click flips the mode, sets the label from the new mode and stores the new mode's string |
| `Toggles.DarkModeToggle.Reload` | script.js:197-203 | after a click, a reload starts in the same mode with the same stored item, and in dark mode with the same label |

## Left out

- `fetchUsers` and its promise chain (`script.js:20-47`): network I/O, and the code at lines 26-32 does not parse as written. The fetched array is an input to `Directory.ReceiveUsers` instead. The loading, error and retry indicators are not modelled.
- `renderUsers` (`script.js:66-150`): DOM output, including the card template and the empty-state indicator. Only the per-card toggle it wires up is modelled.
- `<option>` creation in `populatefilters` (`script.js:58-63`): DOM only. The options are appended without clearing the old ones, so a second fetch would list each city twice. The model returns the sorted list and does not model the drop-down's contents.
- Event-listener wiring and the clear-search button's visibility (`script.js:175-190`): event plumbing. Re-running the filter on each input is a call to `UserFilter.FilterUsers`.
- `console.error` and the actual `localStorage` calls: host I/O. The stored item is the `stored` field and the `item` parameter.
- `Text.ToLower`: folds only ASCII letters. JavaScript's `toLowerCase` applies the full Unicode case mapping, which can also change a string's length.
- `CityOrder.Below`: compares Unicode scalar values. JavaScript compares UTF-16 code units, so strings with characters outside the Basic Multilingual Plane may sort differently.
- Toggles.DarkModeToggle.Startup: the button's text before any click comes from page markup that is not part of this model. It is the `initialLabel` parameter, and the label matches `ModeLabel` only when that text is "Dark Mode". It also starts from a light page: the body is assumed not to carry the `dark-mode` class in the page markup before the startup rule runs.
- Records are compared by value. JavaScript compares objects by identity, which makes no difference to the filter's contents or order.
