# Sports hub: event pipeline and offline cache

This project is a Dafny model of the two parts of the sports hub web app that carry logic:

- **The event pipeline of the `SportsHub` class (`app.js`).** It covers:
  - the status table of the baseball adapter;
  - flattening the schedule response into canonical event records;
  - keeping the games of the followed teams;
  - the fallback to the sample fixture;
  - the stable in-place sort by start instant;
  - the view filter (a time window plus a free-text search);
  - the sport drop-down list;
  - the two unused `APIHelpers` normalisers.
- **The offline cache policy of the service worker (`sw.js`).** A store of named buckets, each mapping a request URL to a response, changed by the `install`, `activate` and `fetch` handlers.

Modules:

- `Common`: an `Option` type, `Keep`, a `Distinct` predicate and subsequences. `Keep` is the order-preserving filter that `Array.prototype.filter` performs.
- `Text`: JavaScript string operations on `seq<char>`.
  - ASCII `toLowerCase`.
  - `includes`.
  - `trim`, over the ECMAScript white space and line terminators.
  - `join`.
  - The default `sort()` order.
  - Decimal rendering of a number inside a template literal.
- `Events`: the event record and the baseball adapter.
  - `getMLBGameStatus`, `normalizeMLBData`, `filterGamesForTeams`, `fetchMLBGames`, `fetchEventsFromAPIs`.
  - `NormalizeMLBData` is a method with the source's two nested loops, proved against the function `NormalizedGames`.
  - `FetchMLBGames` and `FetchEventsFromAPIs` are methods without loops. The first calls the normaliser; the second appends the filtered games to an empty list. They are proved against `NormalizedGames` and `ApiEvents`.
- `EventSort`: the stable order by `start` as a function, `SortByStart`, with its properties (sorted, a permutation, stable, identity on sorted input). An in-place insertion sort on an `array<Event>` is proved to produce exactly that order.
- `ViewFilter`: the four time windows, the search text, the filtered view, and the sorted list of sports.
- `APIHelpers`: the two normalisers of the `APIHelpers` object, as written and corrected (see Findings).
- `Hub`: the class `SportsHub`, with fields `allEvents`, `filteredEvents`, `currentFilter`, `currentSportFilter` and `searchQuery`, and the methods that update them. The methods keep one invariant, `Valid()`: the stored query is lower case and trimmed.
- `ServiceWorker`: the class `CacheStorage` (bucket names in creation order plus the bucket map), and the `Install`, `Activate` and `HandleFetch` handlers.

Inputs that the app gets from I/O are parameters:

- The team fixture, the schedule response and the sample fixture are `Option` values. `None` stands for a failed fetch or an unreadable body.
- The start of the local day is an integer number of milliseconds. A day is the constant 86,400,000 ms.
- The network's answer to a request is a `NetworkOutcome`.

Event instants are integers. Every handler runs as one atomic step. The fire-and-forget `cache.put` takes effect before the handler returns.

The sport drop-down does not narrow the view. Its handler stores the selected value (app.js:28), but `applyFilters` (app.js:212-257) never reads it. So `SportsHub.SetSportFilter` records the choice, and the view it recomputes does not depend on it.

## Model

| member | source | states |
|---|---|---|
| Common.Keep | app.js:150-154 | `filter` keeps, in order, every element satisfying the test as often as it occurs, and nothing else |
| Text.Lower | app.js:34 | `toLowerCase` keeps the length and leaves no upper-case ASCII letter |
| Text.Includes | app.js:249 | `includes` is true exactly when the needle occurs at some position of the string |
| Text.Trim | app.js:34 | `trim` returns the piece of the input left after removing its leading and trailing white space: everything before and after the piece is white space, and the piece neither starts nor ends with white space |
| Text.TrimStart | app.js:34 | the leading part removed is all white space; the rest is a suffix that does not start with white space |
| Text.TrimEnd | app.js:34 | the trailing part removed is all white space; the rest is a prefix that does not end with white space |
| Text.TrimIdempotent | app.js:34 | trimming twice is the same as trimming once |
| Text.NormalizedQueryIsLowerCase | app.js:34 | the stored query `value.toLowerCase().trim()` is lower case |
| Text.JoinContainsPart | app.js:244-247 | every part joined with `join(' ')` occurs in the joined string |
| Text.StrLessIrreflexive | app.js:112 | no string sorts before itself in the default `sort()` order |
| Text.StrLessTransitive | app.js:112 | the default `sort()` order is transitive |
| Text.StrLessTotal | app.js:112 | any two different strings are ordered one way round |
| Text.NatToString | app.js:166 | `${gamePk}` is never empty and has two or more digits exactly when the number is at least 10 |
| Text.NatToStringInjective | app.js:166 | different game keys render as different decimal strings |
| Events.GetMLBGameStatus | app.js:184-200 | an `abstractGameState` of `Live` or `Final` wins; otherwise `detailedState`, or `statusCode` when that is falsy, is looked up among the ten words; anything else is `Scheduled` |
| Events.StatusCodeIgnoredWhenDetailed | app.js:185 | with a truthy `detailedState`, the `statusCode` has no effect on the status |
| Events.GamesOfDatesCount | app.js:161-177 | the number of games flattened equals the total number of games across the dates |
| Events.NormalizeMLBData | app.js:158-181 | the nested loops yield one record per scheduled game, in date order then game order; missing `dates` or `games` contribute nothing |
| Events.NormalizedRecord | app.js:165-174 | each record has id `mlb_` + key, sport `Baseball`, league `MLB`, away team as A, home team as B, the game's start and status, and the venue name as venue, or `TBD` when the name is missing or empty |
| Events.NormalizedIdsDistinct | app.js:166 | games with different keys get different event ids |
| Events.FilterGamesForTeams | app.js:148-155 | the result is an order-preserving subsequence holding exactly the games where some lower-cased followed team name occurs in either lower-cased side; no teams gives no games |
| Events.FetchMLBGames | app.js:129-145 | a failed request gives no games; otherwise the normalised games of the response |
| Events.FetchEventsFromAPIs | app.js:67-104 | the followed baseball teams' games, or nothing when no baseball team is followed; every event is a baseball event |
| EventSort.InsertPermutes | app.js:58 | one insertion step of the sort adds the event and loses nothing |
| EventSort.InsertKeepsSorted | app.js:58 | inserting into a list sorted by start keeps it sorted |
| EventSort.SortIsSorted | app.js:58 | the sorted list is non-decreasing by start |
| EventSort.SortPermutes | app.js:58 | the sorted list is a permutation of the input |
| EventSort.InsertAppendsTie | app.js:58 | an inserted event goes behind the events that start at the same instant |
| EventSort.InsertKeepsOthers | app.js:58 | insertion leaves the relative order of events at other instants as it was |
| EventSort.SortIsStable | app.js:58 | events sharing a start instant keep their original relative order |
| EventSort.SortKeepsSorted | app.js:58 | a list already in start order is left unchanged |
| EventSort.InsertSplit | app.js:58 | an insertion places the event right after the last event that does not start later |
| EventSort.InsertLast | app.js:58 | shifting in place moves the next element into its place in the sorted prefix and leaves the rest of the array alone |
| EventSort.SortEventsByStart | app.js:58 | the in-place sort leaves the array in the stable start order of its old contents |
| EventSort.SortInPlace | app.js:58 | sorting `allEvents` in place yields the stable start order of the list |
| ViewFilter.WindowsNest | app.js:213-240 | no window admits an event before the start of today; today and tomorrow are disjoint, both lie within the week, and the week lies within `all` |
| ViewFilter.TruthyValues | app.js:244-247 | `.filter(Boolean)` keeps the present, non-empty field values in field order, repeats included, and nothing else |
| ViewFilter.FilterView | app.js:222-255 | the view is an order-preserving subsequence of the loaded events holding exactly the events in the window whose search text contains the non-empty query; nothing before the start of today survives |
| ViewFilter.FilterViewIdempotent | app.js:222-253 | filtering the view again with the same settings changes nothing |
| ViewFilter.EmptyQueryKeepsWindow | app.js:243 | with an empty query the view is exactly the events of the window |
| ViewFilter.SearchFindsField | app.js:244-249 | a query that occurs in the lower-cased value of any truthy searchable field matches the event |
| ViewFilter.InsertLabel | app.js:112 | adding a name to a strictly sorted list keeps it strictly sorted and adds just that name |
| ViewFilter.SportLabels | app.js:112 | the sport names are strictly sorted (so distinct), and they are exactly the truthy `sport` values of the events |
| ViewFilter.SportOptions | app.js:112-124 | one option per distinct truthy sport, sorted, each with its lower-cased name as value |
| APIHelpers.LegacyRecords | app.js:376-384 | `games.map(...)` yields one record per game, in order: id `mlb_` + key, sport `Baseball`, league `MLB`, away team as A, home team as B, the game's start, status `live` exactly when the detailed state is `In Progress` and `Scheduled` otherwise, and no venue |
| APIHelpers.DateWithoutGamesYieldsUndefined | app.js:375-385 | the schedule holds no games, yet the helper as written yields one `undefined` entry |
| APIHelpers.NormalizeMLBData | app.js:373-386 | the corrected helper yields one record per scheduled game, in order |
| APIHelpers.AsWrittenDropsToCorrected | app.js:375-385 | dropping the `undefined` entries from the helper's output as written gives exactly the corrected records |
| APIHelpers.AsWrittenAgreesWhenGamesPresent | app.js:375-385 | when every date has `games`, the helper as written yields exactly the corrected records |
| APIHelpers.AgreesWithPipeline | app.js:376-384 | the helper and the class's normaliser agree on id, sport, league, sides and start; the helper sets no venue |
| APIHelpers.LiveSpelledDifferently | app.js:383 | the helper's in-progress status `live` is none of the six canonical status labels |
| APIHelpers.NormalizeNBAData | app.js:388-399 | one record per game in order: id `nba_` + game id, sport `Basketball`, league `NBA`, visitors as side A and home as side B, the game's date as start, status `Completed` exactly for `Final` and `Scheduled` otherwise, and no venue; no `data` gives no events |
| APIHelpers.NBAIdsDistinct | app.js:391 | different game ids give different event ids, and a basketball id never equals a baseball one |
| Hub.SportsHub.constructor | app.js:2-10 | the initial state has no events, today's window, every sport and an empty query |
| Hub.SportsHub.LoadData | app.js:39-64 | without the team fixture nothing changes; otherwise `allEvents` is the sorted API events, or the sorted sample only when the API yields none, or empty when the sample is missing too |
| Hub.LoadedEventsSpec | app.js:47-58 | the loaded list is sorted by start and is a permutation of the API events when there are any, else of the sample events |
| Hub.SportsHub.ApplyFilters | app.js:212-257 | `filteredEvents` becomes the filtered view of `allEvents`, a subsequence without past events; nothing else changes |
| Hub.SportsHub.FilterEvents | app.js:202-210 | the selected window is stored and the view is recomputed with it |
| Hub.SportsHub.SetSearchQuery | app.js:33-36 | the stored query is the input lower-cased and trimmed, which keeps it in normal form, and the view is recomputed |
| Hub.SportsHub.SetSportFilter | app.js:27-30 | the selected sport is stored; the recomputed view does not depend on it |
| Hub.SportsHub.Init | app.js:12-17 | `allEvents` becomes what loading yields (unchanged without the team fixture); the options are the sport list of the loaded events; the view shows today's window only; the query and the sport choice are kept |
| ServiceWorker.MatchIn | sw.js:55 | `caches.match` returns the entry for the URL in the first bucket, in creation order, that has one, and nothing when no bucket has it |
| ServiceWorker.Without | sw.js:33-34 | `filter` keeps the names other than the given one, in their order and as often as they occur, and keeps them distinct |
| ServiceWorker.PutAllStores | sw.js:18 | after storing distinct keys one after another, each key holds its own response and every other entry is unchanged |
| ServiceWorker.AssetsDistinct | sw.js:2-10 | the asset paths are pairwise different |
| ServiceWorker.CacheStorage.Open | sw.js:15 | `caches.open` creates an empty bucket at the end of the order when none has the name, and otherwise changes nothing |
| ServiceWorker.CacheStorage.Put | sw.js:75 | `cache.put` stores the response under the URL in that bucket only |
| ServiceWorker.CacheStorage.Delete | sw.js:37 | `caches.delete` removes exactly that bucket, reports whether it existed, and leaves the other buckets in their creation order |
| ServiceWorker.PutEach | sw.js:18 | the store step of `addAll` puts each response under its path in the named bucket |
| ServiceWorker.Install | sw.js:13-25 | the worker's bucket exists afterwards, appended to the creation order if it was new; if every asset downloads with an ok status, it holds each asset's response and the offline page can be matched; otherwise nothing is stored; no other bucket changes |
| ServiceWorker.DeleteEach | sw.js:32-39 | deleting the listed buckets leaves exactly the other buckets, in their creation order, with their entries unchanged |
| ServiceWorker.Activate | sw.js:28-46 | afterwards the only bucket left is `sports-hub-v1`, if it existed, and its entries are unchanged |
| ServiceWorker.StoreResponse | sw.js:73-76 | opening the worker's bucket and putting the response leaves the bucket order as it was, or with `sports-hub-v1` appended when new, and changes only the one entry |
| ServiceWorker.HandleFetch | sw.js:49-109 | same origin: a cached hit is returned without writes; a miss returns the network answer and stores it exactly when it is 200 and `basic`, appending `sports-hub-v1` to the bucket order when new; a failure gives the cached offline page for documents and nothing otherwise. Cross origin: the network answer is returned and stored exactly when it is 200; a failure returns the cache match. Only `sports-hub-v1` is ever written |

## Left out

- DOM and rendering are not modelled: `bindEvents`, the active-button toggle in `filterEvents`, `renderEvents`, `createEventCard`, `isToday`, `isTomorrow`, `showError` and the `DOMContentLoaded` hook. `SetSearchQuery` and `SetSportFilter` model the two input handlers without the DOM.
- `fetch` and `.json()` are not modelled; their results are inputs. A request that throws or answers non-2xx is `None`, and so is the team or sample fixture failing to load.
- Date handling is simplified. The start of the local day is an input, and a day is a fixed 24 hours, so days of daylight-saving change are not modelled.
- An event `start` is an integer instant. An unparseable date (`NaN`), which compares false in every window test and in the sort comparator, is not modelled.
- The API date range (`startDate` and `endDate`, today plus one month) is not modelled; the schedule response is given as it is.
- `Text.Lower` maps only the ASCII letters, not the full Unicode case mapping of `toLowerCase`.
- `Text.StrLess` compares characters as Dafny `char` values, while JavaScript compares UTF-16 code units. The two orders differ only for characters outside the Basic Multilingual Plane.
- Games missing a team name are not modelled. Such a game does not throw during normalisation: its record gets `teamA` or `teamB` undefined. `filterGamesForTeams` then throws at app.js:151. The catch at app.js:99-101 discards every API event, so `loadData` loads the sample fixture (app.js:50). `FilterGamesForTeams` therefore requires both sides to be present, and the model's records always carry both names.
- Games without a `status` object are not modelled. `getMLBGameStatus` throws at app.js:185, the catch at app.js:141 turns it into an empty list, and the whole response yields no games. In the model every game has a status.
- A sample fixture that parses but is not an array, which would make the sort throw, is not modelled.
- The commented-out NBA branch of `fetchEventsFromAPIs` is not modelled, nor are the `APIHelpers.fetchMLBGames` and `fetchNBAGames` stubs, which always return an empty list.
- Console logging is not modelled.
- The `push`, `sync` and `notificationclick` handlers of the service worker are not modelled; they are platform plumbing.
- `self.skipWaiting` and `self.clients.claim` are not modelled.
- Promise timing is not modelled. Each handler is one atomic step, so a fire-and-forget `cache.put` racing with a later request is not captured.
- The `Promise.all` of deletions in `activate` is modelled as deletions in list order.
- Cache keys are URLs as given: URL resolution and `Request` objects as keys are not modelled.
- The request method is not modelled. `caches.match` finds nothing for a non-GET request, and `cache.put` rejects one, so its answer is never stored. The model looks up and stores by URL alone. The app sends only GET requests.
- `addAll` rejects a 206 (partial) answer, while `IsOk` accepts every status from 200 to 299.
- The origin comparison is a boolean on the request.
- Response cloning is not modelled: a response is a value.
- The `!response` guard of the same-origin fetch is not modelled, because a resolved `fetch` always carries a response.
- `cache.addAll` is modelled as all-or-nothing: nothing is stored unless every asset downloads with an ok status. Its request de-duplication and the browser's internal atomicity are not modelled.
- A store that rejects on a write (quota, for instance) is not modelled.

## Findings

| source | as written | input that shows it | evidently intended | confidence | as-written member | corrected member |
|---|---|---|---|---|---|---|
| app.js:375-385 | `APIHelpers.normalizeMLBData` maps each date with `date.games?.map(...)`. For a date without `games` that yields `undefined`, which `flatMap` keeps as an element, because it flattens only arrays. | `{ dates: [ {} ] }` yields `[undefined]` instead of `[]` | a date without `games` contributes no events, as in the class's own `normalizeMLBData` (app.js:161-177) | not executed | APIHelpers.DateWithoutGamesYieldsUndefined | APIHelpers.NormalizeMLBData |
