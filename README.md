# People filtering, paging and filter form — a Dafny model

This project models the client-side core of a character browser for a public
catalog API (characters, species, movies). Two Angular components make up
that core:

- **The people list** (`people-list.component.ts`). It holds the full list of
  people loaded from the store. Whenever the filter state changes, it starts
  again from the full list and applies every filter whose value is not `null`,
  in turn. Each applied filter produces a fresh record with the filtered
  results, their `count` and the number of pages, and sets the page back to 1.
  The list is shown one page at a time, and two helpers turn a selected row
  into its global ordinal and its locator id.
- **The filter form** (`people-filter-form.component.ts`). It searches the
  species list by name, case-insensitively. It maps a species or movie
  selection to the filter value it dispatches, with `''` meaning "no
  selection". It compares select options by locator, and it syncs the form
  back from the filter state.

Modules:

- `Optional` holds `Option` (JavaScript's `undefined`/`NaN`) and `Result` (a
  thrown error).
- `Sequences` holds order-preserving `Filter`, the subsequence relation and
  their lemmas.
- `JsBuiltins` holds the ECMAScript built-ins the code calls. These are
  `slice`, `substring` and `substr` with their index clamping, `lastIndexOf`
  with a start position, `indexOf` on strings and arrays, `parseInt`, numeric
  coercion of strings, `String(n)` and ASCII `toLowerCase`.
- `Models` holds the records: `Person`, `LookupRecord` (a species or movie),
  `FilterValue`, `FilterType`, `PeopleState` and `FilterAction`, plus
  JavaScript truthiness of a filter value.
- `PeopleList` holds the per-filter predicate, the fold, the recounted record
  and the component class `PeopleListComponent`. The class has the `page`
  field, the page size and the loaded and filtered states.
- `PeopleListProofs` holds the properties of the list: conjunction,
  order-independence, idempotence, narrowing, what each branch keeps, the
  birth-year examples, the paging window and the selection helpers.
- `PeopleFilterForm` holds the species search, the selection and
  synchronisation helpers and the form class `PeopleFilterFormComponent`.

How JavaScript behaviour is modelled:

- `person[filter.name]` is modelled by `PropertyOf`. It gives a list for
  `species` and `films`, a string for `birth_year`, `name` and `url`, and
  `undefined` otherwise. Calling `indexOf` on `undefined` throws a
  `TypeError`. The model returns `Err(PropertyUndefined(name))` for it, but
  only once there is a person to test, because `filter` on an empty array
  never calls its callback.
- A `NaN` birth year compares false with every bound. So a record with an
  unparsable year is dropped by both range filters.

## Model

| member | source | states |
|---|---|---|
| `PeopleList.ConvertSWYear` | src/app/people/components/people-list/people-list.component.ts:86-91 | The year is a number iff the string is longer than the 3-character era and `parseInt` reads a number from what precedes it. Its value is that number, negated exactly when the era is `BBY`. |
| `PeopleListProofs.ConvertBBY` | src/app/people/components/people-list/people-list.component.ts:86-91 | `"19BBY"` converts to -19. |
| `PeopleListProofs.ConvertABY` | src/app/people/components/people-list/people-list.component.ts:86-91 | `"8ABY"` converts to 8. |
| `PeopleListProofs.ConvertFractionalYear` | src/app/people/components/people-list/people-list.component.ts:86-91 | `"41.9BBY"` converts to -41, because `parseInt` stops at the dot. |
| `PeopleListProofs.ConvertUnknown` | src/app/people/components/people-list/people-list.component.ts:86-91 | `"unknown"` converts to `NaN`. |
| `PeopleListProofs.ConvertShort` | src/app/people/components/people-list/people-list.component.ts:87-90 | Any string of at most 3 characters converts to `NaN`, since nothing precedes the era. |
| `PeopleListProofs.ConvertSign` | src/app/people/components/people-list/people-list.component.ts:86-91 | For an unsigned numeral followed by an era, the result is the numeral, negated for `BBY`. It is negative exactly when the era is `BBY` and the numeral is non-zero. |
| `PeopleList.MatchElement` | src/app/people/components/people-list/people-list.component.ts:93-95 | True iff the element occurs in the list. |
| `PeopleList.Keep` | src/app/people/components/people-list/people-list.component.ts:76-83 | The per-person callback throws iff the filter's name is neither a range filter nor a property of the person. |
| `PeopleList.FilterEach` | src/app/people/components/people-list/people-list.component.ts:77-82 | `filter` with that callback fails iff there is a person and the name does not resolve. Otherwise it returns the persons satisfying the filter, in order. |
| `PeopleList.ProcessFilter` | src/app/people/components/people-list/people-list.component.ts:74-84 | A falsy value (`null`, `''`, `0`) returns the list unchanged. It fails exactly for a set value on an unresolvable name and a non-empty list. Otherwise it is the selection of the persons satisfying the filter. |
| `PeopleListProofs.ProcessFilterPreservesOrder` | src/app/people/components/people-list/people-list.component.ts:76-83 | The result is a subsequence of the input. Each kept person keeps its multiplicity, and each rejected person has multiplicity 0. |
| `PeopleListProofs.ProcessFilterMembership` | src/app/people/components/people-list/people-list.component.ts:75-83 | A person is in the result iff it is in the input and satisfies the filter. |
| `PeopleListProofs.BornFromKeeps` | src/app/people/components/people-list/people-list.component.ts:77-78 | `bornFrom` keeps a person iff its converted year is a number and is at least the bound. Records whose year is `NaN` are never kept. |
| `PeopleListProofs.BornToKeeps` | src/app/people/components/people-list/people-list.component.ts:79-80 | `bornTo` keeps a person iff its converted year is a number and is at most the bound. Records whose year is `NaN` are never kept. |
| `PeopleListProofs.RangeBoundNumeral` | src/app/people/components/people-list/people-list.component.ts:77-80 | `Number(String(n))` is `n`, and the numeral string is always truthy. So for any `n` other than 0, a numeral bound on `bornFrom` or `bornTo` keeps the same persons as the number `n`. |
| `PeopleListProofs.LocatorFilterKeeps` | src/app/people/components/people-list/people-list.component.ts:81-82 | The default branch on `species` or `films` keeps a person iff that locator list contains the filter's locator. |
| `PeopleListProofs.NumberNeverMatchesLocators` | src/app/people/components/people-list/people-list.component.ts:82 | A numeric value on a locator list keeps nobody, because `indexOf` compares strictly. |
| `PeopleList.CeilDiv` | src/app/people/components/people-list/people-list.component.ts:68 | `Math.ceil(n / size)`: the least r with r * size >= n. |
| `PeopleList.FilteredState` | src/app/people/components/people-list/people-list.component.ts:61-69 | The record fails iff `processFilter` fails. Otherwise `results` is the filtered list, `count` is the number of results and `totalPages` is that number divided by `pageSize`, rounded up. |
| `PeopleList.PeopleListComponent.FilterPeople` | src/app/people/components/people-list/people-list.component.ts:59-72 | Returns the recounted record, or passes an error through. The page becomes 1 exactly when a record is produced. |
| `PeopleList.PeopleListComponent.HandleFiltering` | src/app/people/components/people-list/people-list.component.ts:46-57 | Before loading, nothing changes. After loading, the filtered state is the fold of the non-`null` filters over the full state. The page becomes 1 when the first non-`null` filter applies without throwing. Otherwise the page keeps its old value. |
| `PeopleList.PropertyOf` | src/app/people/components/people-list/people-list.component.ts:82 | `person[filter.name]`: a string list for `species` and `films` (that person's own list), a string for `birth_year`, `name` and `url`, and `undefined` for every other name. |
| `PeopleList.ApplyFilters` | src/app/people/components/people-list/people-list.component.ts:50-54 | The fold over the filters, skipping `null` ones. With no non-`null` filter it returns the full state. It fails only if some set filter names a field that does not resolve. `ApplyFiltersIsConjunction` ties it to the reference `Conjunction`. |
| `PeopleList.ResetsPage` | src/app/people/components/people-list/people-list.component.ts:52-63 | Whether the fold sets the page back to 1. It can be true only when some filter is not `null`. `ResetsPageAtFirstActive` shows that the first such filter decides it, and `NoActiveNoReset` that with none it is false. |
| `PeopleList.ResetsPageAtFirstActive` | src/app/people/components/people-list/people-list.component.ts:52-63 | When the first non-`null` filter is at index `i`, the page is reset exactly when `processFilter` succeeds on that filter. |
| `PeopleList.NoActiveNoReset` | src/app/people/components/people-list/people-list.component.ts:52-54 | When every filter is `null`, `filterPeople` never runs, so the page is not reset. |
| `PeopleListProofs.ApplyFiltersIsConjunction` | src/app/people/components/people-list/people-list.component.ts:50-54 | When no filter throws, the fold gives the persons satisfying every filter, recounted. With no non-`null` filter, the fold gives the untouched full state. |
| `PeopleListProofs.ApplyFiltersOrderIndependent` | src/app/people/components/people-list/people-list.component.ts:50-54 | Any permutation of the filters gives the same result. |
| `PeopleListProofs.UndefinedFieldOrderMatters` | src/app/people/components/people-list/people-list.component.ts:50-54 | Order matters once a filter names a field that does not exist. One person without species, filtered on species then on `vehicles`, gives a result. The reverse order throws. So the order-independence lemma needs `Applicable`. |
| `PeopleListProofs.ApplyFiltersIdempotent` | src/app/people/components/people-list/people-list.component.ts:50-54 | Folding the same filters over the fold's result changes nothing. |
| `PeopleListProofs.AddingFilterNarrows` | src/app/people/components/people-list/people-list.component.ts:50-54 | One more filter gives a subsequence of the previous result, so the result is never longer. |
| `PeopleListProofs.AllNullFiltersKeepState` | src/app/people/components/people-list/people-list.component.ts:122-135 | After a reset, every filter holds `null`, and the fold returns the full state unchanged. |
| `PeopleListProofs.SpeciesScenario` | src/app/people/components/people-list/people-list.component.ts:50-69 | For three persons of species A, A and B, a species filter on A gives the first two, recounted to count 2 and 1 page. |
| `PeopleList.PeopleListComponent.constructor` | src/app/people/components/people-list/people-list.component.ts:21-25 | Starts on page 1, not loaded, with neither observable set. |
| `PeopleList.PeopleListComponent.OnAllLoaded` | src/app/people/components/people-list/people-list.component.ts:37-41 | Once everything is loaded, both `people$` and `peopleFiltered$` deliver the full state. Before that, nothing changes. |
| `PeopleList.PeopleListComponent.ByPage` | src/app/people/components/people-list/people-list.component.ts:107-112 | A page never holds more than `pageSize` records. |
| `PeopleListProofs.ByPageWindow` | src/app/people/components/people-list/people-list.component.ts:107-112 | For page >= 1, the page is `items[(page-1)*size .. page*size]`, clipped to the list. It is empty iff the page is past the number of items divided by `size`, rounded up. |
| `PeopleList.PeopleListComponent.OnNextPage` | src/app/people/components/people-list/people-list.component.ts:114-116 | The page goes up by exactly 1, and nothing else changes. |
| `PeopleList.PeopleListComponent.OnPrevPage` | src/app/people/components/people-list/people-list.component.ts:118-120 | The page goes down by exactly 1, with no clamp, and nothing else changes. |
| `PeopleList.PeopleListComponent.PersonNumber` | src/app/people/components/people-list/people-list.component.ts:146-148 | For page >= 1 and an index on the page, the number lies in `((page - 1) * size, page * size]`. `PersonNumberLocates` states which record it points at. |
| `PeopleListProofs.PersonNumberLocates` | src/app/people/components/people-list/people-list.component.ts:146-148 | For the record at `index` on the current page, `personNumber(index)` lies within the list, and the record is `items[personNumber(index) - 1]`. |
| `PeopleList.PersonUrlId` | src/app/people/components/people-list/people-list.component.ts:150-155 | A suffix of the locator minus its last character. When the locator ends in a slash, the result holds no slash. `PersonUrlIdExtracts` states which segment it is. |
| `PeopleListProofs.PersonUrlIdExtracts` | src/app/people/components/people-list/people-list.component.ts:150-155 | For `prefix + "/" + id + "/"` with a slash-free `id`, the result is `id`. |
| `PeopleListProofs.PersonUrlIdExample` | src/app/people/components/people-list/people-list.component.ts:150-155 | `https://swapi.co/api/people/4/` gives `"4"`. |
| `PeopleListProofs.PersonUrlIdWithoutTrailingSlash` | src/app/people/components/people-list/people-list.component.ts:150-155 | Without the final slash, the result is the segment before the id, a slash, and the id less its last character. |
| `PeopleFilterForm.SearchSpecies` | src/app/people/components/people-filter-form/people-filter-form.component.ts:119-128 | A missing or empty term gives the whole species list, element for element. |
| `PeopleFilterForm.NameContains` | src/app/people/components/people-filter-form/people-filter-form.component.ts:127 | The search callback holds for a species iff its lower-cased name contains the term. |
| `PeopleFilterForm.SearchSpeciesPreservesOrder` | src/app/people/components/people-filter-form/people-filter-form.component.ts:120-128 | The search result is a subsequence of the species list, and no species occurs in it more often than in the list. |
| `PeopleFilterForm.SearchSpeciesMembership` | src/app/people/components/people-filter-form/people-filter-form.component.ts:124-128 | With a non-empty term, a species is in the result iff its lower-cased name contains the lower-cased term. |
| `PeopleFilterForm.PeopleFilterFormComponent.FilterSpecies` | src/app/people/components/people-filter-form/people-filter-form.component.ts:113-129 | Before the species arrive, nothing is emitted. Otherwise exactly one list is emitted: the search result. |
| `PeopleFilterForm.PeopleFilterFormComponent.OnSearchChanged` | src/app/people/components/people-filter-form/people-filter-form.component.ts:48-52 | A change of the search control records the term and runs the search once. |
| `PeopleFilterForm.PeopleFilterFormComponent.OnSpeciesLoaded` | src/app/people/components/people-filter-form/people-filter-form.component.ts:43-46 | Stores the species list and emits a copy of it. |
| `PeopleFilterForm.PeopleFilterFormComponent.OnMoviesLoaded` | src/app/people/components/people-filter-form/people-filter-form.component.ts:57-58 | Stores the movie list. |
| `PeopleFilterForm.PeopleFilterFormComponent.constructor` | src/app/people/components/people-filter-form/people-filter-form.component.ts:22-31 | Starts with nothing loaded, no search term, nothing emitted and no selection. |
| `PeopleFilterForm.SelectionValue` | src/app/people/components/people-filter-form/people-filter-form.component.ts:89-92 | The dispatched value is always a string. It is truthy iff a record with a non-empty locator is selected, and a selected record's locator strictly equals it. |
| `PeopleFilterForm.OnSpeciesSelected` | src/app/people/components/people-filter-form/people-filter-form.component.ts:88-93 | A species selection dispatches a species-filter action whose value is `''` for a missing selection and `data.url` otherwise. The value constrains the list iff a record with a non-empty locator is selected. |
| `PeopleFilterForm.OnMovieSelected` | src/app/people/components/people-filter-form/people-filter-form.component.ts:95-100 | A movie selection dispatches a movies-filter action whose value is `''` for a missing selection and `data.url` otherwise. The value constrains the list iff a record with a non-empty locator is selected. |
| `PeopleFilterForm.NoSelectionRoundTrip` | src/app/people/components/people-filter-form/people-filter-form.component.ts:89-90 | The `''` sent for a missing selection syncs back to no selection when no record has an empty locator. A `null` (reset) filter always syncs back to no selection. |
| `PeopleFilterForm.NoSelectionIsNoConstraint` | src/app/people/components/people-filter-form/people-filter-form.component.ts:89-90 | The `''` sent for a missing selection leaves the people list unchanged, whatever the filter's name. |
| `PeopleFilterForm.SelectedSpeciesFiltersPeople` | src/app/people/components/people-filter-form/people-filter-form.component.ts:91-92 | The `data.url` sent for a selected species makes the list keep exactly the persons of that species. |
| `PeopleFilterForm.SelectionRoundTrip` | src/app/people/components/people-filter-form/people-filter-form.component.ts:88-100 | Selecting a record and syncing back from the dispatched value finds a record that `compareWith` equates with it. When locators are unique, it finds that very record. |
| `PeopleFilterForm.CompareWith` | src/app/people/components/people-filter-form/people-filter-form.component.ts:109 | `a && b && a.url === b.url`: false whenever either side is missing, and true for a present record compared with itself. `CompareWithSymmetric` and `CompareWithEquivalence` state the rest. |
| `PeopleFilterForm.CompareWithSymmetric` | src/app/people/components/people-filter-form/people-filter-form.component.ts:109 | `compareWith(a, b) == compareWith(b, a)`. |
| `PeopleFilterForm.CompareWithEquivalence` | src/app/people/components/people-filter-form/people-filter-form.component.ts:109 | On present values, `compareWith` is reflexive and transitive. It never holds when either side is missing. |
| `PeopleFilterForm.UrlEquals` | src/app/people/components/people-filter-form/people-filter-form.component.ts:66-67 | `item.url === value` holds iff the value is the string of that locator. A number or `null` never matches. |
| `PeopleFilterForm.FindByUrl` | src/app/people/components/people-filter-form/people-filter-form.component.ts:66-67 | Gives no record iff no record's `url` strictly equals the value. Otherwise it gives the first record that does. |
| `PeopleFilterForm.PeopleFilterFormComponent.SyncFromFilters` | src/app/people/components/people-filter-form/people-filter-form.component.ts:64-68 | Sets the species control, then the movie control, to the first record matching the stored filter. Reading a list that is not loaded throws: that is reported, and the control is left unchanged. |

## Left out

- RxJS observables are modelled by the values they deliver. This covers
  `subscribe`, `pipe`, `take`, `takeUntil`, the ReplaySubject and the ngrx
  `select` and `dispatch` calls. So the model evaluates the fold eagerly
  where the source builds a lazy pipeline. In the source, the page reset
  happens when the pipeline is consumed.
- The store's filter reducer and the shape of its filter state are not part
  of this model. The fold takes a list of filters. The sync takes the two
  stored values directly.
- `onResetFilters` only dispatches four `null` filters. Only its effect on the
  fold is stated, by `AllNullFiltersKeepState`.
- `onSelectPerson` is left out: router navigation and the
  `SetCurrentPerson` dispatch are foreign calls. Its two helpers,
  `personNumber` and `personUrlId`, are modelled.
- These are UI, logging or wiring: `PageService.setPageTitle`, `console.log`,
  `buildForm`, `setCompareFunction`'s subscription timing, `@ViewChild` and
  `ngOnDestroy`.
- The commented-out reactive handler is left out.
- The HTTP error interceptor, the module files and the people page component
  are left out: they are wiring with no logic of this core.
- `parseInt` handles a sign and leading decimal digits. It does not skip
  leading whitespace or read the `0x` hexadecimal prefix.
- `Number(s)` for a string bound handles only an optional sign followed by
  digits. Any other non-empty string gives `NaN`.
- Numbers are unbounded integers. Fractional bounds, a `NaN` filter value and
  floating-point precision are not modelled.
- `toLowerCase` is modelled on ASCII letters only.
- `PropertyOf` resolves only the five `Person` fields of the model. Any other
  name is treated as an absent property.
- `PeopleState` carries only `count`, `results` and `totalPages`. Its other
  fields would be copied unchanged by the `...state` spread.
- `undefined` as a filter value is not modelled.
- `compareWith` is modelled as a boolean. In JavaScript, `a && b && ...`
  returns the falsy operand itself.
- A form control's initial `''` and `undefined` are both modelled as no
  selection.
- `PeopleFilterForm.PeopleFilterFormComponent.SyncFromFilters`: after a
  throw, the next call syncs normally. In the source, the throw happens inside
  a `subscribe` next-handler. Under RxJS 6 semantics that ends the
  subscription, so no later filter change would sync the form. The model
  does not capture that.
- `filteredSpecies$` is a ReplaySubject of size 1. The model keeps every
  emitted list, in order.
- `PeopleList.PeopleListComponent.ByPage`: its own contract only bounds the
  page size. The window and emptiness are stated by `ByPageWindow`, for
  page >= 1. Pages below 1 follow JavaScript `slice` with negative indices.
- `PeopleListProofs.ConvertSign`: it states the sign rule only for unsigned
  numerals. A signed prefix breaks that rule: `parseInt` keeps the sign, so
  `"-5ABY"` converts to -5.
- The fold lemmas require every set filter to name a field that exists. For
  other names, `ProcessFilter` states the error.

## Behaviour of the code worth knowing

The model follows the code in each case.

- **No clamp on `onPrevPage`.** `onPrevPage` decrements `page` without a
  lower bound, so `page` can reach 0 or below. `OnPrevPage` does the same.
  `byPage` then takes a `slice` with negative indices, counted from the end
  of the list.
- **The trailing slash is assumed.** `personUrlId` drops the locator's last
  character and takes what follows the slash before the last one. It returns
  the id only for a locator that ends in a slash. Without the final slash it
  returns the previous segment, a slash, and the id less its last character:
  see `PersonUrlIdWithoutTrailingSlash`.
- **Two unset sentinels.** The form dispatches `''` for no selection, and
  the reset dispatches `null`. `processFilter` treats both, and a bound of 0,
  as no constraint. The fold skips only `null`. So an `''` or 0 filter still
  recounts the record and resets the page.
