# Club directory: filter, search, facet and pagination engine

A Dafny model of the logic inside the browser script of a sports-club
directory. The script fetches club and sport collections, lets the user pick a
sport tab, narrow the list by league, location and age group, search by name
or location, and page through the result 20 clubs at a time. Two versions of
the script exist and both are modelled:

- `js/main.js`, the current one (module `ClubDirectory`): a club matches a
  sport by its explicit `sport`/`sport_name` field or by the collection
  (football or cricket) it was loaded from; missing fields read as `""`; there
  is always at least one page.
- `main.js`, the older one (module `LegacyClubDirectory`): a club matches a
  sport only by `club.sport === sport`; a club without a name makes the search
  throw; an empty list has 0 pages.

Shared pieces live in their own modules: `Text` (`trim`, `toLowerCase`,
`includes`), `Sequences` (`Array.prototype.filter` as `Keep`, `[...new Set(xs)]`
as `Dedup`, and the ordered-subsequence relation), `Clubs` (the club record,
JavaScript truthiness of optional fields, the exact-match test of a drop-down
and facet derivation) and `Paging` (the page slice, the page count and the
pagination controls, including the loop that draws one button per page).

The closure state of each script (`allClubs`, `lastClubsFiltered`,
`currentPage`, and in `js/main.js` also `footballClubs` and `cricketClubs`) is
a class `Directory` whose methods are the fetch callbacks and click handlers.
Its invariant `Valid()` says that the current page is a real page of the shown
list (`1 <= currentPage <= totalPages`; in `main.js` page 1 is also allowed
when there are 0 pages) and that the shown list is a subsequence of all clubs.
Every handler keeps it. A handler that re-renders is the transition followed by
`Render()`, which returns the clubs of the current page, the page count and
the controls. Selections (the active tab and the three drop-down values) are
parameters, as are the decoded collections.

The model follows the code in these places, which are easy to misread:

- In `js/main.js` the collection of origin is ORed into the sport test club by
  club (js/main.js:204-206), even for a club whose explicit sport names another
  sport, not only when the explicit field is absent.
- The facet fallback to a whole collection applies only when no club at all
  names the sport explicitly (js/main.js:180-184), so the drop-downs can miss
  values of clubs that the filter shows (`ClubDirectory.FacetsCanOmitShownLeague`).
- The default tab in `js/main.js` is chosen case-insensitively (js/main.js:105).
- Loading a clubs collection replaces the shown list without resetting the
  page number (js/main.js:49, 79; main.js:36).
- `main.js` reports 0 pages for an empty list (main.js:188) and throws in the
  search handler on a club without a name (main.js:168).

## Model

| member | source | states |
|---|---|---|
| `ClubDirectory.FilterSpec` | js/main.js:203-212 | the filter result is an in-order subsequence of all clubs; a club is in it iff it passes the sport test and equals each non-empty league/location/age-group selection, with its multiplicity in all clubs |
| `ClubDirectory.ProvenanceFallback` | js/main.js:204-206 | a club with no sport field from the cricket collection matches the tabs "Cricket" and "CRICKET" and not "Football" |
| `ClubDirectory.SearchSpec` | js/main.js:241-252 | the search result is an in-order subsequence of all clubs holding exactly the clubs that match the query and pass the sport and drop-down tests, each as often as it occurs in all clubs |
| `ClubDirectory.SearchMatchesIff` | js/main.js:242-244 | a non-empty query matches iff it occurs at some index of the lower-cased name or location; a club with neither never matches |
| `ClubDirectory.EmptySearchIsFilter` | js/main.js:234-252 | an empty or all-whitespace search box gives exactly the filter result |
| `ClubDirectory.FacetScopeCases` | js/main.js:169-184 | the facet scope is all clubs for no sport, the clubs naming the sport when any does, and otherwise the football or cricket collection (case-insensitive) or nothing |
| `ClubDirectory.FacetsCanOmitShownLeague` | js/main.js:180-206 | a club shown under the Football tab through its collection can have a league that the league drop-down does not offer |
| `ClubDirectory.TotalPages` | js/main.js:267 | the page count is at least 1, covers all items with 20 per page, and is more than 1 only when the items do not fit on fewer pages |
| `ClubDirectory.TotalPagesMonotone` | js/main.js:267 | a longer list never has fewer pages |
| `ClubDirectory.DefaultTab` | js/main.js:104-106 | the default tab is absent iff there are no sports, and is always one of them |
| `ClubDirectory.DefaultTabPrefersFirstFootball` | js/main.js:105 | the default tab is the first sport whose lower-cased name is "football" |
| `ClubDirectory.DefaultTabWithoutFootball` | js/main.js:106 | without such a sport the default tab is the first sport |
| `ClubDirectory.Directory.constructor` | js/main.js:5-18 | no clubs, nothing shown, page 1, and the invariant holds |
| `ClubDirectory.Directory.LoadClubs` | js/main.js:42-51 | a collection (null read as empty) is tagged and appended after the earlier clubs, which are unchanged; its per-sport array is replaced; the age groups are recomputed over all clubs; all clubs are shown; the page number is unchanged and still valid |
| `ClubDirectory.Directory.ApplyFilter` | js/main.js:195-227 | the filter result replaces the shown list and the page becomes 1 |
| `ClubDirectory.Directory.ApplySearch` | js/main.js:230-257 | the search result for the trimmed, lower-cased query replaces the shown list and the page becomes 1 |
| `ClubDirectory.Directory.SelectSport` | js/main.js:117-126 | a tab click returns the sport's facets, shows the clubs of that sport with the drop-downs reset to "all", from page 1 |
| `ClubDirectory.Directory.LoadSports` | js/main.js:84-114 | when sports arrive the default tab, if any, is selected as if clicked; with no sports nothing changes |
| `ClubDirectory.Directory.Prev` | js/main.js:321-327 | Prev, available only when drawn, lowers the page by one and keeps it valid; the shown list is untouched |
| `ClubDirectory.Directory.Next` | js/main.js:342-348 | Next, available only when drawn, raises the page by one and keeps it valid |
| `ClubDirectory.Directory.GoTo` | js/main.js:331-338 | an enabled page button sets the page to its number and keeps it valid |
| `ClubDirectory.Directory.Render` | js/main.js:261-304 | the current page of the shown list, at most 20 clubs, empty only when nothing is shown; the page count and the controls drawn for them |
| `LegacyClubDirectory.LeagueNames` | main.js:19 | one league name per record, in order |
| `LegacyClubDirectory.FilterSpec` | main.js:137-142 | the filter result is an in-order subsequence of all clubs; a club is in it iff sport, league, location and age group are each empty or equal to its field, with its multiplicity |
| `LegacyClubDirectory.CurrentFilterKeepsLegacyResult` | main.js:137-142 | the current script's filter shows every club this one shows, in the same order |
| `LegacyClubDirectory.SearchSpec` | main.js:166-175 | the search throws iff the name/location test throws on some club, and otherwise keeps exactly the clubs matching the query and the four selections, in order |
| `LegacyClubDirectory.CompleteClubsNeverThrow` | main.js:166-175 | when every club has a name and a location the search succeeds |
| `LegacyClubDirectory.MissingNameThrows` | main.js:168 | one club without a name makes every search throw |
| `LegacyClubDirectory.EmptySearchIsFilter` | main.js:159-175 | an empty query matches every named club, so the result is the filter result |
| `LegacyClubDirectory.CurrentSearchKeepsLegacyResult` | main.js:166-175 | where this search succeeds, the current script's search shows every club it shows, in the same order |
| `LegacyClubDirectory.FacetScopeSpec` | main.js:117-121 | the facet scope is an in-order subsequence of all clubs holding exactly the clubs whose sport equals the selected one, or all clubs for no sport, each as often as it occurs in all clubs |
| `LegacyClubDirectory.DefaultTabThrowsWithoutFootball` | main.js:56-66 | as written, without a tab named exactly "Football" (even with "football") the sports callback throws a ReferenceError |
| `LegacyClubDirectory.DefaultSportAgreesWhereDefined` | main.js:56-66 | the written code succeeds exactly when the intended default is a tab (then "Football", and both agree); the intended default is otherwise "", all sports, which happens only when no tab is named exactly "Football" |
| `LegacyClubDirectory.Directory.constructor` | main.js:4-13 | no clubs, nothing shown, page 1, and the invariant holds |
| `LegacyClubDirectory.Directory.LoadClubs` | main.js:30-38 | the clubs replace all clubs and are shown whole; the age groups are recomputed over them; the page number is unchanged and still valid |
| `LegacyClubDirectory.Directory.ApplyFilter` | main.js:132-154 | the filter result replaces the shown list and the page becomes 1 |
| `LegacyClubDirectory.Directory.ApplySearch` | main.js:157-180 | on success the search result replaces the shown list and the page becomes 1; on a throw the error is reported and nothing changes |
| `LegacyClubDirectory.Directory.SelectSport` | main.js:69-78 | a tab click returns the sport's facets, shows the clubs of that sport with the drop-downs reset to "all", from page 1 |
| `LegacyClubDirectory.Directory.LoadSports` | main.js:40-66 | when sports arrive the intended default sport is selected as if clicked |
| `LegacyClubDirectory.Directory.Prev` | main.js:235-241 | Prev, available only when drawn, lowers the page by one and keeps it valid |
| `LegacyClubDirectory.Directory.Next` | main.js:256-262 | Next, available only when drawn, raises the page by one and keeps it valid |
| `LegacyClubDirectory.Directory.GoTo` | main.js:245-253 | an enabled page button sets the page to its number and keeps it valid |
| `LegacyClubDirectory.Directory.Render` | main.js:183-218 | the current page of the shown list, at most 20 clubs, empty only when nothing is shown; the page count (0 for none) and the controls |
| `Clubs.Facet` | js/main.js:186-188 | a facet list has no duplicates and no empty values, and holds exactly the non-empty values of that field among the given clubs |
| `Clubs.FacetFirstOccurrenceOrder` | main.js:123-125 | facet values are listed in the order of their first occurrence among the clubs |
| `Clubs.Present` | js/main.js:186 | the truthy values of a field: each is non-empty and carried by some club, and every club's non-empty value is among them |
| `ClubDirectory.SportNameSpec` | js/main.js:204 | `club.sport \|\| club.sport_name \|\| ''` is empty exactly when neither field is a non-empty string; otherwise it is one of the two, `sport` first when it is non-empty |
| `Sequences.Keep` | js/main.js:203 | a filter result holds exactly the input elements that pass, and is no longer than the input |
| `Sequences.KeepIsSubseq` | js/main.js:203 | a filter result is an ordered subsequence of its input |
| `Sequences.KeepSpec` | js/main.js:203 | a filter result is an in-order subsequence of its input holding each passing element as often as the input does, and no other |
| `Sequences.KeepCount` | js/main.js:203 | a filter keeps every occurrence of a passing element and none of a failing one |
| `Sequences.Dedup` | js/main.js:47 | `[...new Set(xs)]` has no duplicates and holds exactly the elements of `xs` |
| `Sequences.DedupFirstOccurrenceOrder` | js/main.js:47 | `[...new Set(xs)]` lists elements in the order of their first occurrence in `xs` |
| `Sequences.DedupIsSubseq` | js/main.js:47 | `[...new Set(xs)]` is an ordered subsequence of `xs` |
| `Text.Trim` | js/main.js:234 | `trim` returns the infix after the longest whitespace prefix, followed only by whitespace, neither starting nor ending with whitespace |
| `Text.Lower` | js/main.js:234 | `toLowerCase` keeps the length and lower-cases each character |
| `Text.LowerIdempotent` | js/main.js:243 | lower-casing twice is lower-casing once and leaves no ASCII capital |
| `Text.ContainsIffOccurs` | js/main.js:243-244 | `includes` holds iff the query occurs at some index |
| `Text.NormalizeQuery` | js/main.js:234 | the search query is no longer than the box value, already lower-case, and empty iff the box holds only whitespace |
| `Paging.CeilPages` | main.js:188 | `Math.ceil(n / 20)` covers all items, is 0 iff there are none, and is the least such count |
| `Paging.PageSliceSpec` | js/main.js:268-270 | page p is the contiguous block from (p-1)*20 cut at the end of the list, at most 20 items, empty exactly when it starts at or past the end |
| `Paging.FortyFiveItems` | js/main.js:267-270 | 45 clubs make 3 pages: the first 20, and the last 5 on page 3; page 4 is empty |
| `Paging.PagesCoverItems` | js/main.js:267-270 | the pages 1 to the page count, concatenated, are the whole list |
| `Paging.RenderPagination` | js/main.js:308-351 | the drawn controls are exactly Prev when past page 1, one button per page from 1 to the count, and Next before the last page, none for a single page |
| `Paging.NoControlsForOnePage` | js/main.js:319 | no controls are drawn iff there is at most one page |
| `Paging.PrevShownIff` | js/main.js:321 | Prev is drawn iff there are several pages and the current one is past the first |
| `Paging.NextShownIff` | js/main.js:342 | Next is drawn iff there are several pages and the current one is before the last |
| `Paging.PageButtonShownIff` | js/main.js:331-334 | page buttons run from 1 to the page count and only the current one is disabled |
| `Paging.TargetInRange` | js/main.js:324-347 | every drawn control leads to a page between 1 and the page count |

## Left out

- Fetching, `.json()` decoding, promise chains and `.catch` logging: a loaded collection is a parameter, and the loads may be called in any order, which covers the unordered arrival of the independent fetches.
- DOM work: building the drop-down options, list items and pagination buttons as elements, the detail modal, `window.onclick`, click delegation with `closest`, and the guards for missing elements; the active tab and the drop-down values are parameters.
- The "No clubs found." placeholder (js/main.js:272-276): the model states when the shown page is empty.
- The league and location collections (js/main.js:23-40, 55-70; main.js:16-28): each callback refills its drop-down and resets it to "all" whenever it arrives, possibly after a tab was chosen (js/main.js:29, 38; main.js:20, 27); `cricketLeagues` and `cricketLocations` fill nothing. The model does not track drop-down contents, since the selections are parameters. The league-record mapping of `main.js` is modelled by `LegacyClubDirectory.LeagueNames`.
- The stored `allSports` arrays and the sport `slug`: nothing reads them. Sports are given by their names; a sport record without a name is not modelled.
- `.toString()` on field values: JSON fields are modelled as strings or absent.
- Object identity in `footballClubs.includes(club)`: modelled as an origin tag set when a collection is loaded.
- Text.Lower: models `toLowerCase` on ASCII letters only; other letters are left unchanged.
- `main.js` with a `null` clubs document (a TypeError at main.js:34): `LegacyClubDirectory.Directory.LoadClubs` takes a sequence.
- LegacyClubDirectory.Directory.LoadClubs: requires that no clubs are loaded yet, since `main.js` fetches its one clubs collection once; a second load could leave the page number past the end, which the script never does.
- The ReferenceError thrown by the `allTab` line of `main.js` is modelled only as `LegacyClubDirectory.DefaultTabAsWritten`; the directory uses the intended default.

## Findings

| source | as written | input that shows it | evidently intended | confidence | as-written member | corrected member |
|---|---|---|---|---|---|---|
| main.js:56-66 | without a tab named exactly "Football", line 63 reads `allTab`, which the script never declares, and throws a ReferenceError unless the page happens to define a global of that name (for example an element with id "allTab"; the HTML is not part of this model), so no tab is selected, nothing is filtered and the tab click handler of lines 69-78 is never attached | sports `["Cricket"]` (or `["football"]`) | fall back to sport "" (all clubs), as the comment on line 62 says | medium; not executed | `LegacyClubDirectory.DefaultTabThrowsWithoutFootball` | `LegacyClubDirectory.DefaultSport` |
