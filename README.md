# Highest-grossing films browser: the filter, sort and statistics pipeline

This project models the logic of `script.js`, the page script of a browser for the
highest-grossing films. The script loads a list of film records, builds the filter
panel's options, and then answers every control the page offers:

- the search box;
- the year, country and director options;
- the sort selector;
- the reset button.

Each control rebuilds the list of films shown, sorts that list in place, and recomputes
the statistics panel.

The modules follow the script's parts:

- `Wrappers`: the `Option` type.
- `Text`: `toLowerCase`, `includes`, and the order of the default `sort()`.
- `Numbers`: `s.replace(/[$,]/g, '')`, the whole-dollar part of `parseFloat`, and `parseInt`.
- `Films`: the film record, JavaScript truthiness of its optional fields, and its parsed amount.
- `Facets`: the option lists of `initializeFilters` and `countFilmsByFilter`.
- `Filtering`: the per-film test of `applyFilters`, and the filter itself.
- `Sorting`: `sortFilms`, as an in-place insertion sort of an array by an integer key.
- `Stats`: the count, box-office total and year range of `updateStats`.
- `Browser`: the module-level state, as the class `Session`, with one method per control.

The values of the search box and of the sort selector are fields of `Session`. An option
of the filter panel is "active" exactly when its value is in its set.

`Session.Valid` is the state that holds between events: the panel's options are those of
the data set, the films shown come from the data set, and the statistics describe them.
`Load` establishes it, and every event handler requires and keeps it. `sortFilms` and
`updateStats` run one after the other inside an event, so neither keeps it alone.

The sort is the stable insertion sort `Sorting.InsertionSorted`. Because it is a function
of its input, re-applying the same selection with the same sort option shows the same list
in the same order.

## Model

| member | source | states |
|---|---|---|
| Text.Lower | script.js:154-159 | `toLowerCase` keeps the length, lowers each character in place, and leaves no capital |
| Text.LowerIdempotent | script.js:154-159 | lower-casing an already lower-cased text changes nothing |
| Text.Contains | script.js:158-159 | `includes` is true exactly when the term occurs at some position of the text |
| Text.LowerKeepsOccurrence | script.js:154-159 | an occurrence of the term stays at the same position once both sides are lower-cased |
| Text.LowerSlice | script.js:154-159 | lower-casing a slice of a text gives the same slice of the lower-cased text |
| Text.OccursLowerIff | script.js:154-159 | the lowered term occurs in the lowered text at a position exactly when, capitals ignored, it occurs there in the original |
| Text.ContainsLowerIff | script.js:154-159 | `text.toLowerCase().includes(term.toLowerCase())` is true exactly when the term occurs somewhere in the text, capitals ignored |
| Text.ContainsEmpty | script.js:158 | every text includes the empty term |
| Text.StrLess | script.js:58-66 | the order of the default `sort()`: character by character, a proper prefix first; the three lemmas below state that it is a strict total order |
| Text.StrLessIrreflexive | script.js:58-66 | the order of `sort()` never puts a string before itself |
| Text.StrLessTransitive | script.js:58-66 | the order of `sort()` is transitive |
| Text.StrLessTotal | script.js:58-66 | `sort()` orders any two different strings one way or the other |
| Numbers.DigitRun | script.js:139 | `parseFloat` reads a leading run of digits that is maximal: the next character is not a digit |
| Numbers.ParseWhole | script.js:139-140 | the number is NaN exactly when the text does not start with a digit; otherwise it is the value of the longest leading run of digits |
| Numbers.DecimalStringValue | script.js:139 | the digits of a number's decimal rendering have that number as their value |
| Numbers.ParseWholeDecimal | script.js:139 | a decimal rendering, followed by anything that is not a digit, parses back to its number |
| Numbers.StripCurrency | script.js:139 | the result contains no `$` and no `,` and is no longer than the text |
| Numbers.StripCurrencyChar | script.js:139 | on one character, `$` and `,` become nothing and every other character is kept; with `StripCurrencyAppend` this fixes the result on every text |
| Numbers.StripCurrencyAppend | script.js:139 | removing `$` and `,` from two texts joined equals removing them from each text and joining the results |
| Numbers.StripCurrencyKeeps | script.js:139 | a text without `$` or `,` is left unchanged |
| Numbers.ParseBoxOffice | script.js:139 | the amount of a film: strip `$` and `,`, then read the leading digits as `parseFloat` does; what it promises is stated by `ParseWhole`, `StripCurrency` and `ParseBoxOfficeRoundTrip` |
| Films.BoxOffice | script.js:139-140 | a film's amount in whole dollars, 0 when the text parses to NaN (`isNaN(value) ? 0 : value`); the total and the box-office sort keys go through it |
| Numbers.StripGrouped | script.js:139 | removing the thousands separators from a grouped amount gives its plain decimal rendering |
| Numbers.ParseBoxOfficeRoundTrip | script.js:139-140 | an amount written as the data set writes it (for example `$2,923,706,026`) parses back to itself |
| Numbers.ParseInt | script.js:217 | `parseInt` on decimal text: NaN exactly when no digit follows the optional sign, otherwise the signed value of the leading digits |
| Numbers.ParseIntNegative | script.js:217 | `parseInt` of a minus sign followed by digits is the negated value of the digits |
| Numbers.ParseIntUnsigned | script.js:217 | `parseInt` of digits with no sign is their value |
| Numbers.IntString | script.js:72 | the text `${year}` writes into an option's value; `ParseIntRoundTrip` states that it parses back |
| Numbers.ParseIntRoundTrip | script.js:212-217 | the rendered value of a year option parses back to that year, negative years included |
| Facets.InsertYear | script.js:49 | inserting a year into a strictly decreasing list keeps it strictly decreasing, and adds exactly that year |
| Facets.YearFacets | script.js:49 | the year options are strictly decreasing, and contain exactly the release years of the data set |
| Facets.InsertText | script.js:50-61 | inserting a value into a strictly ascending list keeps it strictly ascending, and adds exactly that value |
| Facets.TextFacets | script.js:50-66 | the country and director options are strictly ascending, and contain exactly the truthy values of that field |
| Facets.AscendingDistinct | script.js:58-66 | a strictly ascending option list has no repeated value |
| Facets.TextFacetsExact | script.js:50-66 | each country or director option appears once, is non-empty, and is the value some film has |
| Facets.MatchingIndicesSplit | script.js:80-88 | the positions that match are those before the last film that match, plus the last one when it matches |
| Facets.FieldEquals | script.js:82-87 | the `switch` of `countFilmsByFilter`: `===` on the year, the country or the directors, and false for any other type |
| Facets.CountFilmsByFilter | script.js:80-88 | `countFilmsByFilter` over the whole data set, never more than the number of films; `CountIsMatchingPositions` states what it counts |
| Facets.CountIsMatchingPositions | script.js:80-88 | `countFilmsByFilter(type, value)` equals the number of films of the whole data set whose field is `===` the value; its only inputs are the data set, the type and the value |
| Facets.FacetCountsPositive | script.js:49-88 | every option the panel lists shows a count of at least one |
| Filtering.FilterFilms | script.js:156-174 | every film kept passes all four tests; each film occurs as often as in the data set when it passes, and not at all when it fails |
| Filtering.Matches | script.js:157-173 | the callback of `filmsData.filter`: all four tests pass; `MatchesIff` states it without the helpers |
| Filtering.MatchesSearch | script.js:157-159 | the search test on the lowered title, or on the lowered directors when truthy; `SearchIgnoresCase` states its meaning |
| Filtering.MatchesYear | script.js:162-163 | an empty year set passes every film, otherwise the release year must be in it; see `MatchesIff` |
| Filtering.MatchesCountry | script.js:166-167 | an empty country set passes every film, otherwise a truthy country in the set is needed; see `MatchesIff` |
| Filtering.MatchesDirector | script.js:170-171 | an empty director set passes every film, otherwise truthy directors in the set are needed; see `MatchesIff` |
| Filtering.FilterIsSubsequence | script.js:156-174 | the films kept appear in the data set's order, none invented or altered |
| Filtering.SubsequenceMultiset | script.js:156 | a subsequence contains each film at most as often as the data set does |
| Filtering.MatchesIff | script.js:154-171 | a film passes exactly when the lowered title includes the term, or the directors are present and include it; an empty set imposes nothing; a non-empty set requires membership; a missing or empty country or directors fails a non-empty set |
| Filtering.SearchIgnoresCase | script.js:154-159 | the lower-cased search text passes exactly when the query, capitals ignored, occurs in the title, or in the directors when they are present |
| Filtering.EmptyTermMatches | script.js:154-159 | the empty search text matches every film |
| Filtering.NoSelectionKeepsAll | script.js:156-174 | an empty search with no active option keeps every film, in order |
| Filtering.FilterIdempotent | script.js:156-174 | filtering the filtered films again changes nothing |
| Sorting.SortedByKeyInOrder | script.js:185-202 | a list sorted by an option's key is in the order that option promises: box office non-increasing or non-decreasing, year non-increasing or non-decreasing, or title rank ascending |
| Sorting.Insert | script.js:185-203 | one insertion step on values: the film moves left past every film with a larger key; the result is one longer |
| Sorting.InsertPermutation | script.js:185-203 | inserting adds exactly the inserted film to the multiset of films |
| Sorting.InsertSorted | script.js:185-203 | inserting into a list sorted by the key keeps it sorted |
| Sorting.InsertionSortedSorted | script.js:185-203 | the insertion sort's result is sorted by the key |
| Sorting.InsertionSortedPermutation | script.js:185-203 | the insertion sort's result holds the same films, each as often |
| Sorting.InsertionSortedConstant | script.js:200-201 | when the key cannot tell films apart (the `default` case), the sort leaves the order as it was |
| Sorting.InsertWithKey | script.js:185-203 | inserting a film adds it after the films of the same key already present |
| Sorting.InsertionSortedStable | script.js:185-203 | the sort is stable: the films sharing a key come out in the order they went in |
| Sorting.SwapDown | script.js:185 | exchanging two neighbours changes only those two places |
| Sorting.Sink | script.js:185-203 | one insertion step in place: the prefix up to the current position becomes `Insert` of the old prefix and the current film; later positions are untouched |
| Sorting.SortByKey | script.js:185-203 | the array ends as `InsertionSorted` of its old contents: sorted by the key, and a permutation of its films |
| Sorting.AsWrittenComparatorInconsistent | script.js:188-189 | with "$5", "N/A" and "$3", the comparator as written calls the first two equal and the last two equal, but not the first and the last |
| Sorting.CompareBoxOfficeConsistent | script.js:188-192 | with the 0 fallback the comparator is consistent (equality and "before" are transitive, and it is antisymmetric) and agrees with the box-office key |
| Sorting.CompareBoxOfficeAgrees | script.js:188-189 | where both amounts parse, the corrected comparator is the one written |
| Sorting.SortKeyOf | script.js:183-201 | the `switch` on the selector's value: five named options, anything else the `default` that compares every pair as equal |
| Sorting.KeyOf | script.js:185-201 | the integer each option sorts by, ascending: parsed amount or year, negated for the descending options, the title's rank, or 0; `SortedByKeyInOrder` states the order it gives |
| Sorting.CompareBoxOfficeAsWritten | script.js:188-189 | the 'boxOffice' comparator as written, NaN read as "equal"; `AsWrittenComparatorInconsistent` shows it is inconsistent |
| Sorting.CompareBoxOffice | script.js:188-189 | the comparator with the 0 fallback; `CompareBoxOfficeConsistent` and `CompareBoxOfficeAgrees` state what it promises |
| Stats.TotalAppend | script.js:138-141 | the total of two lists joined is the sum of their totals |
| Stats.UnparsedAddsNothing | script.js:139-140 | a film whose amount does not parse adds 0 to the total, wherever it stands |
| Stats.TotalBoxOffice | script.js:138-141 | the `reduce` adding the amounts left to right, an unparseable one adding 0; `TotalAppend`, `UnparsedAddsNothing` and `TotalPermutation` state its properties |
| Stats.TotalPermutation | script.js:138-141 | the total does not depend on the order of the films |
| Stats.MinYear | script.js:147 | `Math.min(...years)` on a non-empty list; `MinYearIsLeast` states what it is |
| Stats.MaxYear | script.js:148 | `Math.max(...years)` on a non-empty list; `MaxYearIsGreatest` states what it is |
| Stats.ComputeStats | script.js:133-150 | the count, the total and the year range of the list; `StatsOfNonEmpty` and `StatsPermutation` state its properties |
| Stats.MinYearIsLeast | script.js:146-147 | `Math.min(...years)` is the year of one of the films, and no film is earlier |
| Stats.MaxYearIsGreatest | script.js:146-148 | `Math.max(...years)` is the year of one of the films, and no film is later |
| Stats.StatsOfNonEmpty | script.js:135-149 | for a non-empty list: the count shown is its length; the range runs from a year of one of its films to a year of another; every film lies within the range |
| Stats.MinYearPermutation | script.js:147 | the earliest year depends only on which films are shown |
| Stats.MaxYearPermutation | script.js:148 | the latest year depends only on which films are shown |
| Stats.StatsPermutation | script.js:133-150 | the statistics depend only on which films are shown, not on their order |
| Browser.Toggled | script.js:213-219 | a toggled value is in the set exactly when it was not before, and every other value keeps its membership |
| Browser.ToggledTwice | script.js:213-219 | toggling the same value twice restores the set |
| Films.Present | script.js:50-51 | JavaScript truthiness of an optional text field: present and not the empty string |
| Browser.SortedSelectionShows | script.js:153-179 | the selected films sorted by the option's key, with their statistics, are in the option's order (selection order for an unrecognised option), have the statistics of the selection, and take no film more often than the data set has it |
| Browser.AllFilmsShow | script.js:225-243 | the whole data set sorted by box office is what `applyFilters` would show with no selection; its statistics are those of the data set |
| Browser.Session.Load | script.js:31-38 | after loading, every film is shown in data-set order, no option is active, the three option lists are built from the data set, the statistics describe the data set, and the invariant `Valid` holds |
| Browser.Session.SortFilms | script.js:182-203 | the shown films become the stable sort of themselves by the option's key: the same films, in the option's order; an unrecognised option leaves them as they were |
| Browser.Session.UpdateStats | script.js:133-150 | the panel shows the statistics of the films shown |
| Browser.Session.CurrentSelection | script.js:154-171 | what the filter reads: `searchInput.value.toLowerCase()` and the three sets of active options |
| Browser.Session.ApplyFilters | script.js:153-179 | the films shown are exactly the filtered data set, stably sorted by the option (data-set order for an unrecognised option), with their statistics; `Valid` is kept |
| Browser.Session.OnSearchInput | script.js:247 | typing sets the search text and re-applies the filters |
| Browser.Session.OnSortChange | script.js:248 | choosing a sort option sets it and re-applies the filters |
| Browser.Session.ToggleFilterOption | script.js:206-222 | the value is toggled in the set its type names ("year" after `parseInt`, "country", or otherwise the directors); the other two sets are unchanged; the filters are re-applied |
| Browser.Session.ToggleTwice | script.js:206-222 | clicking an option twice restores the three sets; when the page was showing the selection before, it shows the same list in the same order and the same statistics |
| Browser.Session.ResetFilters | script.js:225-243 | afterwards no option is active, the search text is empty and the sort is 'boxOffice'; the films shown are the data set stably sorted by box office, non-increasing, with the data set's statistics |

## Left out

- Fetching and decoding `films_data.json`, and the error message shown when that fails (script.js:23-44): these are I/O. `Browser.Session.Load` starts from the decoded list.
- Browser.Session.Load: the initial values of the search box and of the sort selector come from the page's HTML, which is not part of this model. Both are parameters, and so is the title collation.
- Rendering and event wiring: `createFilterOption`, `createFilmCard`, `displayFilms`, the `innerHTML`/`textContent` writes, and `setupEventListeners`. The "active" class of an option is its value being in its set.
- `formatCurrency` and the average: they depend on `Intl.NumberFormat` and on floating-point division. `Stats` keeps the integer total and the count the average is taken from.
- Stats.ComputeStats: for an empty list the source shows `NaN` for the average and `Infinity - -Infinity` for the range; the model's range is `None` there.
- Numbers.ParseWhole: only the whole-dollar part of `parseFloat` is modelled. Leading white space, a sign, decimals and exponents are not.
- Numbers.ParseInt: leading white space and the `0x` prefix (hexadecimal by the default radix) are not modelled. The only text it parses is a year option's value, which is `${year}` (`Numbers.ParseIntRoundTrip`).
- Text.Lower: only ASCII capitals are lowered. `toLowerCase` also lowers other alphabets.
- Text.StrLess: compares characters as Unicode code points. The default `sort()` compares UTF-16 code units, which differ only beyond the Basic Multilingual Plane.
- Sorting.KeyOf: `localeCompare` is locale-dependent. Titles are ranked by a collation function `collate` fixed at load, so the title order is "ascending rank".
- Sorting.SortByKey: the engine's `sort` is stable, as is the model's insertion sort (`InsertionSortedStable`). The model takes the engine's result to be the same list. That a stable sort by a key has only one possible result is not proved here.
- Browser.Session.ToggleFilterOption: requires that a year option's value parses as an integer. The panel renders every year option from an integer (`Numbers.ParseIntRoundTrip`), so a NaN year is never added.
- Sorting.SortKeyOf: the selector is taken to offer exactly the five options the comparator names. Any other value is the unrecognised option, which keeps the order.

## Findings

| source | as written | input that shows it | evidently intended | confidence | as-written member | corrected member |
|---|---|---|---|---|---|---|
| script.js:188-192 | the 'boxOffice' and 'boxOfficeAsc' comparators subtract `parseFloat` results with no NaN fallback, so any unparseable amount compares "equal" to every film | box offices "$5", "N/A", "$3": the first two are equal, the last two are equal, but the first and last are not, so the comparator is inconsistent and the order produced is unspecified | the 0 fallback that `updateStats` already applies (script.js:140), which gives a consistent order by parsed amount | not executed | Sorting.AsWrittenComparatorInconsistent | Sorting.CompareBoxOfficeConsistent |
