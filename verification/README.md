# Student housing market survey — a verified model of its view logic

The student housing market survey is a React dashboard. It shows a portfolio of
subject properties, the competitor properties around them and the nearby
universities. This project models the logic that the dashboard's pages compute
from those records:

- **Properties page** (`PropertiesView`). The subject and competitor lists are
  combined according to the kind filter ("all", "subject", "competitor"). The
  search box then narrows them by a case-insensitive substring test on name or
  address. Finally they are sorted by name, distance to campus, average rent or
  occupancy rate. The sort is JavaScript's stable `Array.prototype.sort`
  (section 23.1.3.30 of ECMA-262), modelled generically in `StableSort`.
- **Map widget** (`MapComponent`). It computes the bounding box of every marker
  with a `Math.min`/`Math.max` reduction seeded with ±Infinity, and its midpoint
  as the map centre. It also remembers the last marker clicked and reports the
  click as an id and a kind tag.
- **Map page** (`MapPage`). It records the selected entity's kind and id, looks
  the record up in the collection of that kind, and chooses the side panel:
  the placeholder, a university card or a property card.
- **Application shell** (`App`). It holds the active view and the id of the
  open property. From these it derives the header title and subtitle and the
  page shown in the main area.
- **Occupancy chart** (`OccupancyChart`). It turns month names into dates and
  groups the series by year, in the order each year first occurs. Each group is
  sorted by date and gets one of five line colours in turn.

The record shapes are in `Types`. `Wrappers`, `Sequences` and `Strings` hold
the option type, subsequences, `find`, lower-casing and `includes`.

State that the source keeps in React `useState` hooks becomes a class with those
fields:

- `MapComponent.MapState` for the widget's selected marker;
- `MapPage.MapPageState` for the page's selection;
- `App.AppState` for the shell.

Each handler is a method that assigns the fields as the setter calls do. The
derived values, such as titles, lookups, content and bounds, are functions of
those fields.

## Model

| member | source | states |
|---|---|---|
| Sequences.FindIndex | src/pages/MapView.tsx:41-45 | `Array.prototype.find` by predicate: a found index is in range, satisfies the predicate and has no satisfying index before it; nothing is found exactly when no element satisfies it |
| Sequences.FindIndexFirst | src/App.tsx:26-27 | the first satisfying index is the one `find` returns |
| Strings.LowerChar | src/pages/PropertiesView.tsx:40-41 | `toLowerCase` on one character, ASCII only: 'A'-'Z' map to 'a'-'z', any other character is unchanged, and the result is never an ASCII upper-case letter |
| Strings.ToLower | src/pages/PropertiesView.tsx:40-41 | lower-casing keeps the length and lower-cases each character in place |
| Strings.ToLowerIdempotent | src/pages/PropertiesView.tsx:40-41 | lower-casing twice is lower-casing once |
| Strings.Includes | src/pages/PropertiesView.tsx:40-41 | `includes`: the empty string is found in every string, and a string longer than the one searched never is |
| Strings.IncludesIff | src/pages/PropertiesView.tsx:40-41 | `includes(t)` holds exactly when `t` occurs at some position of `s` |
| StableSort.Sort | src/pages/PropertiesView.tsx:45 | the sort returns a permutation of its input (same length, same multiset) |
| StableSort.SortIsStable | src/pages/PropertiesView.tsx:45-60 | for a consistent comparator the result is sorted, and the elements comparing equal to any element keep their input order |
| StableSort.StableSortUnique | src/pages/PropertiesView.tsx:45-60 | any sorted result that keeps every class of equal elements in input order equals `Sort`'s, so the model does not depend on the engine's algorithm |
| StableSort.SortedIsFixed | src/pages/PropertiesView.tsx:57-58 | sorting an already sorted sequence (in particular under a comparator that always returns 0) returns it unchanged |
| StableSort.ClassMembers | src/pages/PropertiesView.tsx:45-60 | an element is in the class of `k` exactly when it is in the sequence and compares equal to `k` |
| PropertiesView.KindFiltered | src/pages/PropertiesView.tsx:36-38 | the spread of the two lists holds only properties whose kind the filter admits |
| PropertiesView.KindFilterCases | src/pages/PropertiesView.tsx:36-38 | 'all' gives every subject followed by every competitor, 'subject' only the subjects, 'competitor' only the competitors, and any other filter nothing |
| PropertiesView.KindFilteredCounts | src/pages/PropertiesView.tsx:36-38 | the kind filter keeps each property of an admitted kind as often as it occurs in the combined list, and no other |
| PropertiesView.Matches | src/pages/PropertiesView.tsx:39-42 | the filter callback: a property survives the search exactly when the lower-cased query occurs in its lower-cased name or its lower-cased address |
| PropertiesView.SearchIgnoresQueryCase | src/pages/PropertiesView.tsx:40-41 | the search gives the same answer for a query and for its lower-cased form |
| PropertiesView.SearchFiltered | src/pages/PropertiesView.tsx:39-42 | the search result is an order-preserving subsequence of its input, keeps only matching properties, and keeps every matching one as often as it occurs |
| PropertiesView.EmptyQueryKeepsAll | src/pages/PropertiesView.tsx:39-42 | an empty query keeps the list unchanged |
| PropertiesView.FilteredProperties | src/pages/PropertiesView.tsx:36-42 | `filteredProperties` is a subsequence of subjects followed by competitors; it holds exactly the properties of an admitted kind that match the query, each as often as in the combined list |
| PropertiesView.LocaleCompare | src/pages/PropertiesView.tsx:48 | the comparison result is -1, 0 or 1; it is at most 0 exactly when the collation puts `a` no later than `b`, and 0 exactly when each is no later than the other |
| PropertiesView.Compare | src/pages/PropertiesView.tsx:45-60 | the comparator lets `a` stay first exactly when: its name is no later ('name'); its distance is no greater ('distance'); its rent, or occupancy rate, is no smaller, a missing value counting as 0 ('rent', 'occupancy'). Any other option returns 0 |
| PropertiesView.BeforeIsTotalPreorder | src/pages/PropertiesView.tsx:45-60 | every option's comparator, read as "does not return a positive number", is total and transitive, so the stable-sort guarantees apply |
| PropertiesView.SortedProperties | src/pages/PropertiesView.tsx:45-60 | the sorted list is a permutation of the filtered list. 'name' ascends by the collation and 'distance' by distance to campus. 'rent' and 'occupancy' descend, with a missing value counted as 0. Equal keys keep their filtered order, and an unknown option returns the filtered list unchanged |
| PropertiesView.UnknownKeyKeepsOrder | src/pages/PropertiesView.tsx:57-58 | for an option outside the four, the sort leaves the list unchanged |
| MapComponent.AllCoordinates | src/components/MapView.tsx:25-29 | one point per subject, competitor and university |
| MapComponent.MarkersAtCoordinates | src/components/MapView.tsx:25-29 | the i-th point is the location of the i-th marker (subjects, then competitors, then universities) |
| MapComponent.Fold | src/components/MapView.tsx:31-46 | the reduction yields bounds that contain every point and the accumulator, each bound being the accumulator's or some point's coordinate |
| MapComponent.BoundsOf | src/components/MapView.tsx:31-46 | an empty list leaves the ±Infinity seed; otherwise all four bounds are finite, every point lies in the box, and each bound is the coordinate of some point |
| MapComponent.BoundsIgnoreOrder | src/components/MapView.tsx:25-46 | the box depends only on which points there are, not on their order |
| MapComponent.SameMinLat | src/components/MapView.tsx:34 | two lists with the same points have the same least latitude |
| MapComponent.SameMaxLat | src/components/MapView.tsx:35 | two lists with the same points have the same greatest latitude |
| MapComponent.SameMinLng | src/components/MapView.tsx:36 | two lists with the same points have the same least longitude |
| MapComponent.SameMaxLng | src/components/MapView.tsx:37 | two lists with the same points have the same greatest longitude |
| MapComponent.Center | src/components/MapView.tsx:48-51 | the centre exists exactly when all four bounds are finite, and each coordinate is the midpoint of its two bounds |
| MapComponent.CenterInsideBounds | src/components/MapView.tsx:31-51 | a non-empty list has a centre and it lies inside the box; an empty list has none |
| MapComponent.MapState.constructor | src/components/MapView.tsx:22 | no marker is selected at first |
| MapComponent.MapState.Click | src/components/MapView.tsx:89-149 | a click selects the marker's id and, when the page passed a handler, reports that id with the tag of its collection ('subject', 'competitor' or 'university') |
| MapPage.Collection | src/pages/MapView.tsx:39-47 | the collection searched for a kind holds only entities of that kind, and an unknown kind searches nothing |
| MapPage.SelectedEntityData | src/pages/MapView.tsx:36-49 | null exactly for a falsy id or an unknown kind. A found record has the selected id and kind and is the first such record in its collection. `undefined` comes back exactly when no record of a known kind has the id |
| MapPage.PanelTitle | src/pages/MapView.tsx:94-128 | the placeholder when the data is falsy; otherwise 'University Details' exactly for the 'university' kind and 'Property Details' for any other |
| MapPage.CardMatchesRecord | src/pages/MapView.tsx:98-117 | whenever details are shown, the university card is chosen exactly when the record is a university |
| MapPage.MarkerInCollection | src/pages/MapView.tsx:39-45 | every marker on the map belongs to the collection searched for its reported kind |
| MapPage.ClickedMarkerIsFound | src/pages/MapView.tsx:85-90 | looking up a clicked marker with a non-empty id always finds a record with that id and kind, so the details panel is shown |
| MapPage.MapPageState.constructor | src/pages/MapView.tsx:15-16 | the selection starts as kind '' and id null, and the placeholder is shown |
| MapPage.MapPageState.HandleEntitySelection | src/pages/MapView.tsx:25-28 | both fields become exactly the arguments, without validation |
| MapPage.MapPageState.ClearSelection | src/pages/MapView.tsx:30-33 | the selection returns to its initial values (so clearing twice is clearing once) and the lookup gives null |
| MapPage.ClickMarker | src/pages/MapView.tsx:85-90 | a marker click handled by widget and page together leaves the marker selected in both and shows a record of its id and kind |
| App.PropertyById | src/App.tsx:24-29 | a found property has the id. A competitor is returned only when no subject has the id. Nothing is found exactly when neither list has the id |
| App.PropertyByIdInCombinedList | src/App.tsx:24-29 | the lookup is the first property with the id in the list of subjects followed by competitors |
| App.NavViewsOffered | src/components/layout/Navbar.tsx:13-18 | 'dashboard', 'properties', 'map' and 'universities' are the views of the navigation bar |
| App.HeaderTitle | src/App.tsx:31-48 | 'Property Details' while a property is open; otherwise the navigation bar's label for the view, and 'Dashboard' for a view the bar does not offer |
| App.HeaderSubtitle | src/App.tsx:50-67 | the details sentence while a property is open; empty exactly when no property is open and the view is not offered |
| App.RenderContent | src/App.tsx:69-87 | with a property open, the details page of the property `getPropertyById` returns (a subject before a competitor), or nothing exactly when no property has the id; otherwise the page that the header title names, and the dashboard for a view not offered |
| App.HeaderNamesContent | src/App.tsx:31-87 | the header title always names the page shown in the main area |
| App.NavItemsReachDistinctPages | src/components/layout/Navbar.tsx:13-18 | each entry of the navigation bar leads to its own page, titled with the entry's label |
| App.NavigationKeepsDetailsOpen | src/App.tsx:70-74 | with a property open, any view still shows the details (or nothing) under 'Property Details', whereas the same view without it shows a page of its own |
| App.EmptyIdActsAsNone | src/App.tsx:32-70 | an empty id gives the same title, subtitle and content as no id |
| App.AppState.constructor | src/App.tsx:13-14 | the shell starts on 'dashboard' with no property open, titled 'Dashboard' |
| App.AppState.ViewPropertyDetails | src/App.tsx:16-18 | opening a property sets its id, keeps the view, and (for a non-empty id) titles the page 'Property Details' |
| App.AppState.BackToProperties | src/App.tsx:20-22 | going back clears the id and keeps the view, so a view page is shown again |
| App.AppState.Navigate | src/App.tsx:92 | choosing a navigation entry sets the view and leaves the open property, if any, open |
| OccupancyChart.MonthIndex | src/components/charts/OccupancyChart.tsx:29-31 | `months.indexOf`: the position of the name in the month list, or -1 exactly when the name is not in it |
| OccupancyChart.MonthIndexOfMonths | src/components/charts/OccupancyChart.tsx:20 | each month name is found at its own position (the names are distinct) |
| OccupancyChart.FullYear | src/components/charts/OccupancyChart.tsx:31 | `new Date` reads years 0 to 99 as 1900 to 1999 and any other year as it is (section 21.4.2.1 of ECMA-262) |
| OccupancyChart.ParseDate | src/components/charts/OccupancyChart.tsx:29-32 | the date of a listed month lies in the full year of `year`, in that month; an unknown month (index -1) gives December of the full year before |
| OccupancyChart.ParseDateMonthOrder | src/components/charts/OccupancyChart.tsx:29-32 | within a year, dates follow the month positions, and an unknown month is dated before every listed month |
| OccupancyChart.UnknownMonthIsPreviousDecember | src/components/charts/OccupancyChart.tsx:29-32 | an unknown month (index -1) gives the date of December of the year before, for every year except 0 and 100, where the 1900 offset for years 0 to 99 breaks the equation |
| OccupancyChart.Process | src/components/charts/OccupancyChart.tsx:35-40 | `processedData` has the input's length and order, each point extended with its parsed date |
| OccupancyChart.StripProcess | src/components/charts/OccupancyChart.tsx:35-40 | removing the dates again gives back the input |
| OccupancyChart.ProcessDated | src/components/charts/OccupancyChart.tsx:35-40 | every processed point carries the date `parseDate` gives its month and year |
| OccupancyChart.ByDateIsTotalPreorder | src/components/charts/OccupancyChart.tsx:53 | the date comparator is consistent, so the group sort is a stable sort |
| OccupancyChart.OfYearContents | src/components/charts/OccupancyChart.tsx:44-50 | the points pushed for a year are the input's points of that year, as often as they occur |
| OccupancyChart.YearsListed | src/components/charts/OccupancyChart.tsx:44-50 | a year gets a group exactly when some point has it |
| OccupancyChart.YearsDistinct | src/components/charts/OccupancyChart.tsx:44-51 | no year gets two groups |
| OccupancyChart.FirstOfYearSnoc | src/components/charts/OccupancyChart.tsx:45-49 | appending a point changes only the first position of a year not seen before |
| OccupancyChart.YearsInFirstOccurrenceOrder | src/components/charts/OccupancyChart.tsx:44-51 | the groups come in the order in which their years first occur in the input (the `Map`'s insertion order) |
| OccupancyChart.CollectByYear | src/components/charts/OccupancyChart.tsx:44-50 | the `forEach` loop leaves one map entry per year, in first-occurrence order, holding that year's points in input order |
| OccupancyChart.GroupByYear | src/components/charts/OccupancyChart.tsx:43-55 | `dataByYear` is one group per year in first-occurrence order, each that year's points sorted by date |
| OccupancyChart.GroupContents | src/components/charts/OccupancyChart.tsx:44-53 | a group holds exactly the input's points of its year, as often as they occur |
| OccupancyChart.GroupsHoldTheirYear | src/components/charts/OccupancyChart.tsx:44-53 | every point of a group is an input point of the group's year |
| OccupancyChart.EveryPointGrouped | src/components/charts/OccupancyChart.tsx:44-53 | every input point is in the group of its own year |
| OccupancyChart.GroupSizesSum | src/components/charts/OccupancyChart.tsx:44-53 | the group sizes add up to the number of points |
| OccupancyChart.GroupsSortedByDate | src/components/charts/OccupancyChart.tsx:53 | each group ascends by date, and points with equal dates keep their input order |
| OccupancyChart.UnknownMonthFirst | src/components/charts/OccupancyChart.tsx:29-53 | in every group, a point with an unknown month name comes before every point with a listed month |
| OccupancyChart.LineColor | src/components/charts/OccupancyChart.tsx:122 | the i-th line is drawn in one of the five colours |
| OccupancyChart.LineColorsCycle | src/components/charts/OccupancyChart.tsx:21-122 | the colours repeat every five lines, and five consecutive lines have five different colours |

## Left out

- Strings.LowerChar: only ASCII 'A'-'Z' are mapped; other upper-case letters such as 'É' are left unchanged, unlike in JavaScript.
- Strings.ToLower: only ASCII 'A'-'Z' are lower-cased. JavaScript's `toLowerCase` maps the whole Unicode range and can change a string's length, which the model does not capture.
- PropertiesView.LocaleCompare: the locale's collation is not modelled. It is a parameter `nameLe`, assumed to be a total preorder on names, and the -1/0/1 result is derived from it.
- Numbers are Dafny reals. IEEE rounding, NaN and the infinities of subtraction are not modelled. Comparator differences are exact, and `value || 0` replaces only a missing value (a NaN would also become 0 in JavaScript).
- MapComponent.Center: where JavaScript computes NaN or an infinite centre (an empty list), the model returns no centre.
- MapComponent.MapState.Click: whether the page passed `onSelectProperty` is a boolean parameter. The callback's own effect is modelled separately by `MapPage.MapPageState.HandleEntitySelection`, and the two are joined in `MapPage.ClickMarker`.
- The Leaflet map, its tiles and the marker icons and popups are left out, because they are foreign library calls. So are the visx/d3 scales, axes, ticks and legend of the chart (lines 57-161 of the chart file, except the line colour of line 122), and all JSX, class names and cards.
- React's `useState`/`useMemo` scheduling is not modelled: a setter call is an immediate field assignment.
- OccupancyChart.ParseDate: a date is a count of months. Its order agrees with the time value's order. Time zones, milliseconds, fractional years and dates outside the range JavaScript can represent are not modelled.
- OccupancyChart.GroupByYear: each group is sorted by a function on sequences (`StableSort.Sort`). The in-place `sort` of the array held in the map is not modelled, and neither is the aliasing between that array and the map entry.
- StableSort.Sort: the engine's sorting algorithm is not visible. Insertion sort stands in for it, and `StableSortUnique` shows that every algorithm meeting the standard's requirements gives the same result.
- The map page's search box and kind filter are not modelled, because the input has no handler and the select only logs its value.
- The navigation bar's mobile menu toggle is not modelled. Only the view change it reports is (`App.AppState.Navigate`).
- The dashboard's figures are not modelled, because they are fixed literals. The same goes for the universities page, the property details page, the property cards and their type labels, and the metrics cards.
- The fixture data in `src/data/mockData.ts` is not modelled.
- The record fields that are only displayed are not carried: management company, property type and class, status, years built and renovated, images, amenities, campus type, housing requirement, calendar and logo.
