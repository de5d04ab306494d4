# NASA API explorer — a verified model of its data-shaping core

The repository is a set of small servers and React screens around NASA's
public APIs:

- an Express proxy (`nasa-api-RESTAPI`) that serves the last month of
  Astronomy Pictures of the Day (APOD) through a six-hour in-memory cache;
- an Apollo GraphQL server (`nasa-api-project/nasa-api-graphql`) that serves
  APOD images, Mars-rover photos, available sols and cameras, and keeps a
  Firestore copy of each rover's photo manifest, reconciled once a day;
- a second GraphQL API (`nasa-graphql-api`) that caches APODs and near-Earth
  objects (NEOs) in two SQLite tables;
- a React front end: the APOD slideshow with favourites, the favourites
  page, the Mars-rover bar/radial charts with a paginated photo modal, and
  the Asteroid Watch week view.

This project models the logic inside that I/O code. The network, Firestore,
SQLite, environment variables and the clock are parameters: an upstream
answer is an `Option`/`Result` or a function from the attempt number to an
outcome, a table is a `map` from its unique key to its row, `now` is an
integer, and a failing query is a boolean. Module state that the source
reassigns (the in-memory caches, the SQLite tables, a rover's documents, the
React state of each page) is a `class` whose methods say what they change;
loops of the source (`getDateRange`, the `solMap` fill, the retry loop, the
`barChartData` chunking, the NEO flattening, the solRange loops, the query
building) are methods with invariants, proved against a specification
function about which the properties are then proved as lemmas.

Modules, one per source file plus shared helpers:

| module | models |
|---|---|
| `Wrappers`, `Text`, `Calendar` | Option/Result; JavaScript truthiness, `includes`, ASCII `toLowerCase`, `parseInt`, `new Set` order; `YYYY-MM-DD` dates, `new Date(...)` on them, `toISOString().split('T')[0]` |
| `SpaceFilter` | the image/hdurl/keyword filter shared by both APOD proxies |
| `TtlCache` | the six-hour single-slot and keyed in-memory caches |
| `RestApi` | `GET /api/apod/last7days` |
| `GraphqlFallback` | the Apollo server's APOD resolver and its fallback rover resolvers |
| `RoverSync`, `RoverStore` | `updateRoverData` and the database-backed rover resolvers |
| `SqlCache`, `ApodModel`, `NeoModel` | the SQLite cache tables |
| `NasaService`, `ApodResolvers` | `NASAService` and the SQLite API's resolvers |
| `MarsRoverPage`, `AsteroidWatch`, `Favourites`, `HomePage`, `MyFavouritesPage` | the React screens |

Behaviour of the code worth knowing, where a reader of the design might
expect otherwise (the model follows the code):

- A second run of `updateRoverData` with the same manifest is not always a
  no-op: the high-water mark is read before stale sols are deleted, so a
  second run can store sols the first skipped
  (`RoverStore.ReconcileTwiceCounterexample`). It is a no-op when the stored
  maximum survives the first run (`RoverStore.ReconcileTwice`).
- The fallback summary looks a sol up with `find`, so with a sol listed twice
  the first manifest entry wins, even one without photos
  (`GraphqlFallback.SummaryFirstEntryWins`).
- The seven-day NEO guard lives in `fetchNEOs` and its error is caught there,
  so a long range surfaces as the generic "Failed to fetch NEO data from NASA
  API" message, and a reversed range passes the guard because it measures an
  absolute difference (`NasaService.RangeGuardIsAbsolute`).
- An empty cached APOD list is a cache hit (an empty array is truthy).

## Model

| member | source | states |
|---|---|---|
| SpaceFilter.AnyKeyword | nasa-api-project/nasa-api-graphql/index.ts:129-133 | an item passes iff some keyword occurs in its lower-cased title or explanation; a missing text matches nothing |
| SpaceFilter.ImagesOnly | nasa-api-RESTAPI/index.js:55 | exactly the items that are images with an hdurl are kept |
| SpaceFilter.WithKeyword | nasa-api-RESTAPI/index.js:59-64 | exactly the items mentioning a keyword are kept |
| SpaceFilter.SpacePhotos | nasa-api-project/nasa-api-graphql/index.ts:127-134 | the result is exactly the raw items that are hd images mentioning one of the ten keywords, and is no longer than the input |
| SpaceFilter.SpacePhotosAppend | nasa-api-RESTAPI/index.js:55-64 | the filter preserves upstream order: filtering a concatenation concatenates the filtered parts |
| SpaceFilter.ImagesOnlyAppend | nasa-api-RESTAPI/index.js:55 | the image filter preserves order |
| SpaceFilter.WithKeywordAppend | nasa-api-RESTAPI/index.js:59-64 | the keyword filter preserves order |
| SpaceFilter.SpacePhotosIdempotent | nasa-api-project/nasa-api-graphql/index.ts:127-134 | filtering an already filtered (cached) list changes nothing |
| SpaceFilter.ImagesOnlyKeepsAll | nasa-api-RESTAPI/index.js:55 | a list of hd images only is kept whole |
| SpaceFilter.WithKeywordKeepsAll | nasa-api-RESTAPI/index.js:59-64 | a list of keyword items only is kept whole |
| SpaceFilter.SpacePhotoExamples | nasa-api-RESTAPI/index.js:55-64 | an hd image titled "Spiral Galaxy M51" passes; the same item as a video, or without hdurl, does not |
| TtlCache.Serve | nasa-api-project/nasa-api-graphql/index.ts:114 | a slot is served iff it holds data and is younger than six hours, and then its data is served |
| TtlCache.ServeKey | nasa-api-project/nasa-api-graphql/index.ts:185 | a keyed slot is served iff the key is present with data younger than six hours |
| TtlCache.Refill | nasa-api-project/nasa-api-graphql/index.ts:136-139 | a refill holds the new data stamped with `now` |
| TtlCache.RefillServedForSixHours | nasa-api-project/nasa-api-graphql/index.ts:12 | a refilled slot is served unchanged exactly until six hours have passed |
| TtlCache.RefillKeyLeavesOthers | nasa-api-project/nasa-api-graphql/index.ts:207 | refilling one key serves the new data for that key and leaves every other key's answer unchanged |
| RestApi.Server.constructor | nasa-api-RESTAPI/index.js:17-20 | the cache starts empty with timestamp 0 |
| RestApi.Server.Last7Days | nasa-api-RESTAPI/index.js:24-76 | a fresh cache (an empty list included) is served as is; otherwise a failed fetch gives 500 and keeps the cache, a successful one answers the filtered list and stores it stamped `now`; every answered item is an image that passes the filter |
| GraphqlFallback.Server.constructor | nasa-api-project/nasa-api-graphql/index.ts:90-95 | all four caches start empty |
| GraphqlFallback.Server.ApodImages | nasa-api-project/nasa-api-graphql/index.ts:101-142 | without an API key the resolver fails even with a fresh cache; with one, a fresh cache is served, a failed fetch leaves it, a fetch refills it with the space photos |
| GraphqlFallback.Server.FetchRange | nasa-api-project/nasa-api-graphql/index.ts:212-238 | one group per requested sol, in order; a failed sol gives count 0, no camera and no photos; summary groups carry no photos |
| GraphqlFallback.Server.MarsRoverPhotos | nasa-api-project/nasa-api-graphql/index.ts:175-249 | a fresh entry for the identical argument key is served; the summary and solRange paths refill that key, the solRange answer holding per requested sol, in order, its RangeGroup (count of the fetched photos, 0 with no camera and no photos for a failed sol); any error, and a call with neither path, gives [] and caches nothing |
| GraphqlFallback.Server.AvailableSols | nasa-api-project/nasa-api-graphql/index.ts:251-274 | cached per rover for six hours; otherwise the manifest sols with photos, cached; a failure gives [] |
| GraphqlFallback.Server.AvailableCameras | nasa-api-project/nasa-api-graphql/index.ts:276-296 | as for sols, with the distinct manifest cameras |
| GraphqlFallback.FindFirst | nasa-api-project/nasa-api-graphql/index.ts:198 | `find` returns the first manifest entry with that sol |
| GraphqlFallback.SummaryResults | nasa-api-project/nasa-api-graphql/index.ts:193-205 | one summary group per manifest entry with photos |
| GraphqlFallback.SummaryPerEntry | nasa-api-project/nasa-api-graphql/index.ts:193-205 | group i has the sol of the i-th entry with photos and no photos; with unique sols it carries that entry's count and first camera |
| GraphqlFallback.SummaryFirstEntryWins | nasa-api-project/nasa-api-graphql/index.ts:198-201 | with a sol listed twice the first entry's count (0) is reported |
| GraphqlFallback.RangeGroup | nasa-api-project/nasa-api-graphql/index.ts:228-236 | a fetched sol counts its photos and keeps them unless summary only; a failed one is empty |
| GraphqlFallback.ManifestCameras | nasa-api-project/nasa-api-graphql/index.ts:288 | `flatMap` holds exactly the cameras of the manifest entries |
| GraphqlFallback.AvailableCamerasOf | nasa-api-project/nasa-api-graphql/index.ts:288 | the available cameras have no duplicates and are exactly the manifest's cameras |
| GraphqlFallback.AvailableSolsOfManifest | nasa-api-project/nasa-api-graphql/index.ts:264-266 | the available sols are, in manifest order, exactly the sols of the entries with photos |
| RoverSync.FirstCamera | nasa-api-project/nasa-api-graphql/database-solution.ts:398 | `cameras?.[0] \|\| null` is the first camera unless the list is empty or it is "" |
| RoverSync.WithPhotos | nasa-api-project/nasa-api-graphql/database-solution.ts:242 | only manifest entries with photos are kept |
| RoverSync.WithPhotosAppend | nasa-api-project/nasa-api-graphql/database-solution.ts:242 | the filter keeps manifest order |
| RoverSync.CamerasFor | nasa-api-project/nasa-api-graphql/database-solution.ts:252-258 | the cameras of a sol are the union of the cameras of its entries |
| RoverSync.MergedIsSumAndUnion | nasa-api-project/nasa-api-graphql/database-solution.ts:245-262 | a sol's merged record carries that sol, the sum of its entries' photo counts and the union of their cameras |
| RoverSync.Deduplicated | nasa-api-project/nasa-api-graphql/database-solution.ts:245-262 | after deduplication each kept sol appears exactly once, in first-appearance order, with summed count and united cameras |
| RoverSync.Deduplicate | nasa-api-project/nasa-api-graphql/database-solution.ts:245-262 | the `solMap` loop yields exactly the deduplication specification |
| RoverSync.SolsToStore | nasa-api-project/nasa-api-graphql/database-solution.ts:263-265 | every deduplicated sol when nothing is stored, otherwise exactly those above the latest stored sol |
| RoverSync.SolsToDelete | nasa-api-project/nasa-api-graphql/database-solution.ts:270-273 | exactly the stored sols missing from the deduplicated manifest |
| RoverSync.StoreAndDeleteDisjoint | nasa-api-project/nasa-api-graphql/database-solution.ts:263-273 | no sol is both stored and deleted, and every stale stored sol is deleted |
| RoverSync.HighWaterMark | nasa-api-project/nasa-api-graphql/database-solution.ts:263-265 | with a stored maximum h, a sol is stored iff it is above h |
| RoverSync.FlatCameras | nasa-api-project/nasa-api-graphql/database-solution.ts:306 | the flattened list holds exactly the records' cameras |
| RoverSync.AllCamerasOfManifest | nasa-api-project/nasa-api-graphql/database-solution.ts:305-306 | the rover metadata lists each camera of the kept manifest exactly once |
| RoverSync.RetryWaitFromHeader | nasa-api-project/nasa-api-graphql/database-solution.ts:220-221 | the wait is Retry-After seconds times 1000; a missing, unparseable or zero header waits 60 s |
| RoverSync.Retryable | nasa-api-project/nasa-api-graphql/database-solution.ts:219 | only a 429 status is retried |
| RoverSync.RequestWithRetry | nasa-api-project/nasa-api-graphql/database-solution.ts:213-230 | at most maxRetries attempts; a success returns its body; a non-429 error ends at once; a 429 is retried while attempts remain, each wait computed from its header, and a 429 on the last attempt is rethrown |
| RoverStore.Rover.constructor | nasa-api-project/nasa-api-graphql/database-solution.ts:175-178 | no rover document and no stored sols |
| RoverStore.Rover.ShouldUpdate | nasa-api-project/nasa-api-graphql/database-solution.ts:175-185 | false iff the rover document exists and was checked today |
| RoverStore.Rover.AllSols | nasa-api-project/nasa-api-graphql/database-solution.ts:95-108 | every stored sol exactly once, with its document, sorted strictly ascending |
| RoverStore.Rover.LatestStoredSol | nasa-api-project/nasa-api-graphql/database-solution.ts:192-200 | the greatest stored sol, or null when none is stored |
| RoverStore.Rover.DeleteSols | nasa-api-project/nasa-api-graphql/database-solution.ts:277-279 | exactly the listed sols are removed |
| RoverStore.Rover.StoreSols | nasa-api-project/nasa-api-graphql/database-solution.ts:285-299 | each record is written under its sol, overwriting |
| RoverStore.Rover.Reconcile | nasa-api-project/nasa-api-graphql/database-solution.ts:270-299 | the sols collection becomes the reconciliation specification |
| RoverStore.Rover.UpdateRoverData | nasa-api-project/nasa-api-graphql/database-solution.ts:202-315 | skipped when checked today; refused without a key; otherwise it updates exactly when one of the three attempts succeeds after only 429s, reconciling on the manifest of that first success, and a failure carries the upstream outcome it rethrows; on a failed request nothing changes; after an update the stored sols are reconciled against the deduplicated manifest and the metadata records the distinct cameras, all sols and today |
| RoverStore.DocsOf | nasa-api-project/nasa-api-graphql/database-solution.ts:285-299 | the written documents are keyed by exactly the records' sols |
| RoverStore.ReconciledContents | nasa-api-project/nasa-api-graphql/database-solution.ts:263-299 | afterwards only manifest sols are stored, every sol above the mark is stored, and surviving stored sols keep their documents |
| RoverStore.ReconcileTwice | nasa-api-project/nasa-api-graphql/database-solution.ts:202-315 | a second run with the same manifest changes nothing when the stored maximum is a manifest sol |
| RoverStore.ReconcileTwiceCounterexample | nasa-api-project/nasa-api-graphql/database-solution.ts:192-200 | with sol 10 stored and manifest {5}, the first run leaves nothing and the second stores 5 |
| RoverStore.NothingToStore | nasa-api-project/nasa-api-graphql/database-solution.ts:263-265 | nothing is stored when every sol is at or below the mark |
| RoverStore.Rover.AvailableSols | nasa-api-project/nasa-api-graphql/database-solution.ts:320-333 | exactly the stored sols with photos, strictly ascending |
| RoverStore.Rover.AvailableCameras | nasa-api-project/nasa-api-graphql/database-solution.ts:335-338 | the metadata's camera list, or [] without metadata |
| RoverStore.WithPhotoCount | nasa-api-project/nasa-api-graphql/database-solution.ts:411 | keeps exactly the sols with photos and keeps the ascending order |
| RoverStore.Rover.PhotosForRange | nasa-api-project/nasa-api-graphql/database-solution.ts:373-405 | the solRange loop yields the range specification |
| RoverStore.RangeGroupsSpec | nasa-api-project/nasa-api-graphql/database-solution.ts:380-401 | fails iff photos are needed without a key for some answered sol; otherwise each group is a requested sol stored with photos (and the camera when filtered), counts exactly its photos, and every answered sol is present |
| RoverStore.RangeGroupsErrorStays | nasa-api-project/nasa-api-graphql/database-solution.ts:373-405 | once a prefix of the range fails the whole call fails the same way |
| RoverStore.Rover.MarsRoverPhotos | nasa-api-project/nasa-api-graphql/database-solution.ts:340-440 | a non-empty range takes the range path; otherwise one summary group per stored sol with photos, ascending, each with its count and first camera |
| SqlCache.CacheHoursDefault | nasa-graphql-api/src/models/APODModel.ts:92 | an unset or empty setting means 6 hours, "12" means 12, a non-number is NaN |
| SqlCache.OrNull | nasa-graphql-api/src/models/APODModel.ts:25-29 | an absent or empty string is stored as NULL, anything else as itself |
| ApodModel.Upsert | nasa-graphql-api/src/models/APODModel.ts:14-30 | the table stays keyed by date |
| ApodModel.UpsertReplaces | nasa-graphql-api/src/models/APODModel.ts:14-30 | caching leaves exactly one row for the date with the new values, and every other row as it was |
| ApodModel.RoundTrip | nasa-graphql-api/src/models/APODModel.ts:112-123 | an APOD reads back with its fields, an empty optional field coming back absent |
| ApodModel.BuildQuery | nasa-graphql-api/src/models/APODModel.ts:43-57 | BETWEEN, `>=`, `<=` or no WHERE for both, start-only, end-only or no bounds, one parameter per placeholder, always ending in ORDER BY date DESC |
| ApodModel.SelectNext | nasa-graphql-api/src/models/APODModel.ts:57-61 | taking the latest remaining row keeps the selection's progress |
| ApodModel.SelectionNonEmpty | nasa-graphql-api/src/models/APODModel.ts:46-61 | the query answers something iff a row lies within the bounds |
| ApodModel.CachedApod | nasa-graphql-api/src/models/APODModel.ts:71-85 | the row for the date read back, or null when there is none or the query fails |
| ApodModel.FreshAfterCaching | nasa-graphql-api/src/models/APODModel.ts:90-106 | a just-cached date is fresh for exactly the configured hours (six by default) and never with an unreadable setting |
| ApodModel.ApodTable.CacheApod | nasa-graphql-api/src/models/APODModel.ts:11-35 | the table becomes the upsert of the APOD at `now` |
| ApodModel.ApodTable.GetCachedApods | nasa-graphql-api/src/models/APODModel.ts:40-66 | [] on a failed query; otherwise every row within the bounds, read back, once each, by strictly decreasing date |
| NeoModel.MagnitudeOrNull | nasa-graphql-api/src/models/NEOModel.ts:27-91 | a magnitude of 0 is dropped like a missing one |
| NeoModel.Upsert | nasa-graphql-api/src/models/NEOModel.ts:14-34 | the table stays keyed by neo_id |
| NeoModel.UpsertReplaces | nasa-graphql-api/src/models/NEOModel.ts:14-34 | caching leaves exactly one row for the id with the new values and every other row as it was |
| NeoModel.ReadBackOfRow | nasa-graphql-api/src/models/NEOModel.ts:87-104 | a cached NEO reads back with `neo_id` as id, its first approach's figures and its magnitude dropped when 0 |
| NeoModel.SelectNext | nasa-graphql-api/src/models/NEOModel.ts:47-55 | taking an earliest remaining row keeps the selection's progress |
| NeoModel.RangeSelectionNonEmpty | nasa-graphql-api/src/models/NEOModel.ts:47-55 | the range query answers something iff a row's date lies in the range |
| NeoModel.OneFreshRowSuffices | nasa-graphql-api/src/models/NEOModel.ts:65-82 | one fresh row in the range makes the range fresh; with none it is stale |
| NeoModel.NeoTable.CacheNeo | nasa-graphql-api/src/models/NEOModel.ts:11-39 | an object with an approach is upserted; one without fails and writes nothing |
| NeoModel.NeoTable.GetCachedNeos | nasa-graphql-api/src/models/NEOModel.ts:44-60 | [] on a failed query; otherwise exactly the rows approaching in [start, end], once each, by non-decreasing date |
| NasaService.ParamsFor | nasa-graphql-api/src/services/NASAService.ts:20-27 | a count (not 0) is sent with no dates; otherwise exactly the dates that are given |
| NasaService.BuildApodParams | nasa-graphql-api/src/services/NASAService.ts:20-27 | the field-by-field construction yields those parameters |
| NasaService.Images | nasa-graphql-api/src/services/NASAService.ts:34 | exactly the image items are kept |
| NasaService.ImagesAppend | nasa-graphql-api/src/services/NASAService.ts:34 | the media filter keeps NASA's order |
| NasaService.FetchApods | nasa-graphql-api/src/services/NASAService.ts:18-39 | a failed request gives the fixed error; otherwise the image items of the (wrapped) answer |
| NasaService.SingleObjectWrapped | nasa-graphql-api/src/services/NASAService.ts:32 | a single object is a list of one, kept iff it is an image |
| NasaService.ApodForDate | nasa-graphql-api/src/services/NASAService.ts:44-55 | the answer only when it is an image; null for anything else and on failure |
| NasaService.DiffDays | nasa-graphql-api/src/services/NASAService.ts:63-66 | defined iff both dates parse, and then the absolute day difference |
| NasaService.CeilOfWholeDays | nasa-graphql-api/src/services/NASAService.ts:66 | rounding a whole number of days up adds nothing |
| NasaService.RangeTooLong | nasa-graphql-api/src/services/NASAService.ts:68 | the guard fires only for two valid dates more than seven days apart |
| NasaService.RangeGuardIsAbsolute | nasa-graphql-api/src/services/NASAService.ts:63-68 | two printed dates are refused iff they are more than seven days apart in either order, so a reversed range within seven days passes |
| NasaService.DayNeosContents | nasa-graphql-api/src/services/NASAService.ts:85-106 | one NEO per object with approach data, taken at its first approach; the others are skipped |
| NasaService.FlattenContents | nasa-graphql-api/src/services/NASAService.ts:84-107 | the flattened feed holds exactly the NEOs of the objects with approach data of every day |
| NasaService.FlattenFeed | nasa-graphql-api/src/services/NASAService.ts:81-109 | the nested loops push exactly the flattened feed |
| NasaService.FetchNeos | nasa-graphql-api/src/services/NASAService.ts:60-117 | a range over seven days is refused unrequested with the generic error; a 400 gives "Invalid date range for NEO query", any other failure the generic error; a feed gives its flattening |
| ApodResolvers.IsValidDate | nasa-graphql-api/src/resolvers/index.ts:196-202 | accepted iff the string has the YYYY-MM-DD shape and `new Date` accepts it (month 1 to 12, day 1 to 31, a day past the month's end rolling over) |
| ApodResolvers.FormattedDatesAreValid | nasa-graphql-api/src/resolvers/index.ts:196-202 | every date the API prints is accepted back |
| Calendar.ParseFormat | nasa-graphql-api/src/resolvers/index.ts:213 | reading back a printed calendar date gives the date |
| Calendar.FormatParse | nasa-graphql-api/src/resolvers/index.ts:200-213 | a valid date string without day overflow prints back as itself |
| Calendar.NextDay | nasa-graphql-api/src/resolvers/index.ts:214 | the next day is one day later in the ordinal count |
| ApodResolvers.DateRangeFacts | nasa-graphql-api/src/resolvers/index.ts:207-218 | consecutive days from start to end inclusive, starting with the start; empty when start is after end or a bound is invalid |
| ApodResolvers.DaysUntilFacts | nasa-graphql-api/src/resolvers/index.ts:212-215 | the listed days have the right count, are canonical and consecutive |
| ApodResolvers.GetDateRange | nasa-graphql-api/src/resolvers/index.ts:207-218 | the loop lists exactly the date range |
| ApodResolvers.TransformRaw | nasa-graphql-api/src/resolvers/index.ts:180-191 | every field is copied unchanged |
| ApodResolvers.NeoRoundTrip | nasa-graphql-api/src/resolvers/index.ts:134-156 | a NEO cached by `getNEOs` reads back as itself unless its magnitude is 0 |
| ApodResolvers.CacheApodsKeys | nasa-graphql-api/src/resolvers/index.ts:53-55 | after caching, the table holds the old dates and every fetched date |
| ApodResolvers.CacheApodsLastWins | nasa-graphql-api/src/resolvers/index.ts:53-55 | the last fetched APOD of a date is that date's row |
| ApodResolvers.CacheApodsKeepsOthers | nasa-graphql-api/src/resolvers/index.ts:53-55 | a date not fetched keeps its row |
| ApodResolvers.CacheNeosKeys | nasa-graphql-api/src/resolvers/index.ts:130-158 | after caching, the table holds the old ids and every fetched id |
| ApodResolvers.CacheNeosLastWins | nasa-graphql-api/src/resolvers/index.ts:130-158 | the last fetched NEO of an id reads back as that NEO (magnitude 0 dropped) |
| ApodResolvers.EffectiveArgs | nasa-graphql-api/src/resolvers/index.ts:21-24 | no arguments stand for today..today; any argument is kept as given |
| ApodResolvers.Resolvers.CachedAnswer | nasa-graphql-api/src/resolvers/index.ts:27-45 | the cache answers iff a start/end query without count finds a non-empty cache covering every date of the range, each fresh; it answers the bounded selection |
| ApodResolvers.Resolvers.CacheAllApods | nasa-graphql-api/src/resolvers/index.ts:53-55 | the APOD table becomes each fetched APOD cached in turn |
| ApodResolvers.Resolvers.GetApods | nasa-graphql-api/src/resolvers/index.ts:15-62 | a cache hit is served; otherwise a failed fetch gives "Failed to fetch APOD data: ..." and a fetch answers the transformed images and caches them |
| ApodResolvers.Resolvers.GetApod | nasa-graphql-api/src/resolvers/index.ts:67-97 | a malformed date is refused first; a fresh cached row is served; otherwise a non-image answer gives null without caching, an image is cached and returned |
| ApodResolvers.Resolvers.CachedNeos | nasa-graphql-api/src/resolvers/index.ts:117-123 | the cache answers iff the range is fresh and holds a row; it answers the range selection |
| ApodResolvers.Resolvers.CacheAllNeos | nasa-graphql-api/src/resolvers/index.ts:130-158 | the NEO table becomes each fetched NEO, rebuilt raw, cached in turn |
| ApodResolvers.Resolvers.GetNeos | nasa-graphql-api/src/resolvers/index.ts:102-166 | malformed dates and a start after the end are refused before cache or upstream; a fresh non-empty cache is served without a request; otherwise the feed is fetched, cached and returned, and failures carry the NASAService message |
| MarsRoverPage.ItemOf | nasa-api-project/src/MarsRoverPage.tsx:163-170 | an item carries the group's sol, its count and its camera |
| MarsRoverPage.ForCamera | nasa-api-project/src/MarsRoverPage.tsx:160-161 | exactly the groups of the selected camera are kept |
| MarsRoverPage.ForCameraAppend | nasa-api-project/src/MarsRoverPage.tsx:160-161 | the camera filter keeps the summary's order |
| MarsRoverPage.AllChartData | nasa-api-project/src/MarsRoverPage.tsx:156-175 | nothing without a summary; with a camera selected the items of the selected camera's groups in summary order, each item coming from such a group and every such group giving its item; otherwise all groups, each as its item |
| MarsRoverPage.WithPhotos | nasa-api-project/src/MarsRoverPage.tsx:184 | exactly the items with count > 0, with their multiplicities |
| MarsRoverPage.Insert | nasa-api-project/src/MarsRoverPage.tsx:185 | inserting into a sorted list keeps it sorted and adds exactly the item |
| MarsRoverPage.SortBySol | nasa-api-project/src/MarsRoverPage.tsx:185 | the result is sorted by sol and a permutation of the input |
| MarsRoverPage.BarInputIsSortedWithPhotos | nasa-api-project/src/MarsRoverPage.tsx:183-185 | the bar input is sorted by sol and is exactly the items with photos |
| MarsRoverPage.TotalCountAppend | nasa-api-project/src/MarsRoverPage.tsx:196 | photo totals add over concatenation |
| MarsRoverPage.BarsPartition | nasa-api-project/src/MarsRoverPage.tsx:190-200 | the bars' items put together are the list; there are ceil(n/28) bars, all but the last of exactly 28, the last of 1 to 28 |
| MarsRoverPage.BarsFields | nasa-api-project/src/MarsRoverPage.tsx:193-198 | each bar runs from its first to its last sol and sums its counts; on sorted input the bars are ordered |
| MarsRoverPage.BarsTotal | nasa-api-project/src/MarsRoverPage.tsx:190-200 | the bars' totals add up to the photos of the list |
| MarsRoverPage.BarChartData | nasa-api-project/src/MarsRoverPage.tsx:178-203 | the chart's bars are the 28-chunks of the sorted items with photos |
| MarsRoverPage.CutBars | nasa-api-project/src/MarsRoverPage.tsx:188-200 | the index loop yields exactly the 28-chunks |
| MarsRoverPage.BarsStep | nasa-api-project/src/MarsRoverPage.tsx:190-199 | one loop step adds the chunk at i |
| MarsRoverPage.RadialBounded | nasa-api-project/src/MarsRoverPage.tsx:209-219 | the radial view shows at most 28 chart items; for an existing bar only items with photos |
| MarsRoverPage.SelectedBarBounded | nasa-api-project/src/MarsRoverPage.tsx:213-216 | a selected bar has at most 28 items, all chart items with photos |
| MarsRoverPage.PagesCoverPhotos | nasa-api-project/src/MarsRoverPage.tsx:723 | photo i is item i mod 25 of page i div 25; a page has at most 25 photos and is empty iff it starts past the end |
| MarsRoverPage.NextDisabledOnLastPage | nasa-api-project/src/MarsRoverPage.tsx:704-708 | Next is disabled iff the page is the last or beyond; ceil(n/25) pages cover the photos |
| MarsRoverPage.RoverPage.constructor | nasa-api-project/src/MarsRoverPage.tsx:79-86 | the page opens on curiosity, no camera, sol or modal, page and bar 0 |
| MarsRoverPage.RoverPage.RoverChange | nasa-api-project/src/MarsRoverPage.tsx:224-231 | resets camera, sol, modal, bar and page |
| MarsRoverPage.RoverPage.CameraChange | nasa-api-project/src/MarsRoverPage.tsx:234-239 | resets sol, modal and page; keeps rover and bar |
| MarsRoverPage.RoverPage.SelectBar | nasa-api-project/src/MarsRoverPage.tsx:496 | selects the bar and nothing else |
| MarsRoverPage.RoverPage.SolClick | nasa-api-project/src/MarsRoverPage.tsx:242-246 | opens the modal on the sol and keeps the page |
| MarsRoverPage.RoverPage.CloseModal | nasa-api-project/src/MarsRoverPage.tsx:675 | closes the modal and returns to page 0 |
| MarsRoverPage.RoverPage.ModalBackdrop | nasa-api-project/src/MarsRoverPage.tsx:659 | closes the modal and keeps the page |
| MarsRoverPage.RoverPage.PreviousPage | nasa-api-project/src/MarsRoverPage.tsx:697-698 | one page back, never below 0 |
| MarsRoverPage.RoverPage.NextPage | nasa-api-project/src/MarsRoverPage.tsx:707-708 | the enabled Next moves one page on, and the new page still starts within the photos |
| MarsRoverPage.RoverPage.OpenPhoto | nasa-api-project/src/MarsRoverPage.tsx:725 | shows the photo full screen |
| MarsRoverPage.RoverPage.CloseFullscreen | nasa-api-project/src/MarsRoverPage.tsx:748 | leaves full screen |
| AsteroidWatch.Weekday | nasa-api-project/src/AsteroidWatchPage.tsx:25 | `getDay()` is between 0 (Sunday) and 6 |
| AsteroidWatch.ShiftDays | nasa-api-project/src/AsteroidWatchPage.tsx:26 | `setDate` by k days moves day and weekday by k and keeps the time of day |
| AsteroidWatch.StartOfWeekIsMonday | nasa-api-project/src/AsteroidWatchPage.tsx:23-28 | the week start is the Monday on or before the date, a Sunday going back six days, at the same time of day |
| AsteroidWatch.EndOfWeekIsSunday | nasa-api-project/src/AsteroidWatchPage.tsx:31-36 | the week end is the Sunday on or after the date, a Sunday being its own end |
| AsteroidWatch.WeekSpansSixDays | nasa-api-project/src/AsteroidWatchPage.tsx:23-36 | end minus start is exactly six days and the date lies between them |
| AsteroidWatch.WeekShift | nasa-api-project/src/AsteroidWatchPage.tsx:65-75 | moving the date by k weeks moves both bounds by k weeks |
| AsteroidWatch.ApproachTime | nasa-api-project/src/AsteroidWatchPage.tsx:112 | a date-only approach date is a UTC midnight |
| AsteroidWatch.MondayDroppedAsWritten | nasa-api-project/src/AsteroidWatchPage.tsx:111-114 | as written, a Monday approach is in the week iff the selection is exactly midnight |
| AsteroidWatch.InWeekIsSevenDays | nasa-api-project/src/AsteroidWatchPage.tsx:111-114 | compared by day, an asteroid is in the week iff it approaches Monday to Sunday; everything the written filter keeps is kept |
| AsteroidWatch.Keep | nasa-api-project/src/AsteroidWatchPage.tsx:111 | a filter keeps exactly the matching items |
| AsteroidWatch.ChartedAsWrittenAreInWeek | nasa-api-project/src/AsteroidWatchPage.tsx:111-122 | as written, charted asteroids are exactly the feed's ones whose approach instant lies within the week's bounds and at least the minimum diameter; raising the minimum never adds one; each is also charted when the week is compared by day |
| AsteroidWatch.ChartedAreInWeek | nasa-api-project/src/AsteroidWatchPage.tsx:111-122 | corrected chart (week compared by day): charted asteroids are exactly the feed's ones approaching Monday to Sunday at least the minimum diameter; raising the minimum never adds one |
| AsteroidWatch.AsteroidWatchPage.constructor | nasa-api-project/src/AsteroidWatchPage.tsx:50-51 | the page opens on the current instant with no minimum diameter |
| AsteroidWatch.AsteroidWatchPage.PreviousWeek | nasa-api-project/src/AsteroidWatchPage.tsx:65-69 | the date moves back seven days and both bounds a week |
| AsteroidWatch.AsteroidWatchPage.NextWeek | nasa-api-project/src/AsteroidWatchPage.tsx:71-75 | the date moves on seven days and both bounds a week |
| AsteroidWatch.AsteroidWatchPage.CurrentWeek | nasa-api-project/src/AsteroidWatchPage.tsx:77-79 | the date becomes now |
| Favourites.WithoutUrl | nasa-api-project/src/MyFavourites.tsx:64 | exactly the entries with another url remain, and none with the url |
| Favourites.WithoutUrlAppend | nasa-api-project/src/nasaHomePage.tsx:107 | removal by url keeps the other entries in order |
| Favourites.WithoutAbsentUrl | nasa-api-project/src/nasaHomePage.tsx:107 | removing an absent url changes nothing |
| Favourites.AddThenRemove | nasa-api-project/src/nasaHomePage.tsx:107-111 | adding a non-favourite then removing it restores the list |
| HomePage.ImageOf | nasa-api-project/src/nasaHomePage.tsx:42-45 | an image keeps url and hdurl, a missing explanation becoming "" |
| HomePage.MapImages | nasa-api-project/src/nasaHomePage.tsx:40-46 | the loaded images are exactly the mapped image items |
| HomePage.MapImagesAppend | nasa-api-project/src/nasaHomePage.tsx:40-46 | the mapping keeps the list order |
| HomePage.NextIndexCycles | nasa-api-project/src/nasaHomePage.tsx:59 | the next index stays in range and wraps from the last image to the first |
| HomePage.InfoToggle | nasa-api-project/src/nasaHomePage.tsx:177-182 | flips the description; showing it hides the thumbnails |
| HomePage.ThumbnailsToggle | nasa-api-project/src/nasaHomePage.tsx:191-199 | shows the thumbnails alone when hidden, otherwise hides both |
| HomePage.PanelsExclusive | nasa-api-project/src/nasaHomePage.tsx:177-199 | neither button leaves both panels shown |
| HomePage.Home.constructor | nasa-api-project/src/nasaHomePage.tsx:24-32 | no images, index 0, description shown, thumbnails hidden |
| HomePage.Home.LoadImages | nasa-api-project/src/nasaHomePage.tsx:36-49 | the images become the mapped fetch |
| HomePage.Home.NextSlide | nasa-api-project/src/nasaHomePage.tsx:55-66 | unless paused or empty the index moves to the next image |
| HomePage.Home.SelectThumbnail | nasa-api-project/src/nasaHomePage.tsx:236 | a thumbnail click selects that image |
| HomePage.Home.ToggleFavorite | nasa-api-project/src/nasaHomePage.tsx:115-128 | removes every favourite with the current url if it is one, otherwise appends the current image with its index as id |
| HomePage.Home.HandleFavorite | nasa-api-project/src/nasaHomePage.tsx:99-113 | nothing without a user; otherwise removes by url or appends, other entries unchanged |
| HomePage.Home.SetUser | nasa-api-project/src/nasaHomePage.tsx:81-96 | signed out, no favourites; signed in, the stored list or [] |
| HomePage.Home.InfoButton | nasa-api-project/src/nasaHomePage.tsx:177-182 | the panels follow the info toggle |
| HomePage.Home.ThumbnailsButton | nasa-api-project/src/nasaHomePage.tsx:191-199 | the panels follow the thumbnails toggle |
| HomePage.Home.PauseButton | nasa-api-project/src/nasaHomePage.tsx:209 | flips pause |
| MyFavouritesPage.CardText | nasa-api-project/src/MyFavourites.tsx:118 | the explanation when at most 90 characters, else its first 90 followed by "..." |
| MyFavouritesPage.Dismiss | nasa-api-project/src/MyFavourites.tsx:136-155 | in full screen only full screen is left; otherwise the modal is cleared |
| MyFavouritesPage.DismissTwiceCloses | nasa-api-project/src/MyFavourites.tsx:136-155 | two dismissals always close the modal |
| MyFavouritesPage.MyFavourites.constructor | nasa-api-project/src/MyFavourites.tsx:16-20 | no user, no favourites, loading, no modal |
| MyFavouritesPage.MyFavourites.SetUser | nasa-api-project/src/MyFavourites.tsx:28-46 | signed out the list is empty; signed in the stored list or []; loading ends |
| MyFavouritesPage.MyFavourites.OpenCard | nasa-api-project/src/MyFavourites.tsx:108-110 | the card's favourite opens in the modal |
| MyFavouritesPage.MyFavourites.DismissModal | nasa-api-project/src/MyFavourites.tsx:136-155 | the modal state follows `Dismiss` |
| MyFavouritesPage.MyFavourites.ViewFullscreen | nasa-api-project/src/MyFavourites.tsx:174 | the open modal goes full screen |
| MyFavouritesPage.MyFavourites.Unfavourite | nasa-api-project/src/MyFavourites.tsx:58-66 | nothing without a user; otherwise every entry with the url goes, the rest keep their order, and the modal closes |
| Text.ParseIntOfDecimal | nasa-api-project/nasa-api-graphql/database-solution.ts:220 | `parseInt` reads a printed number back |
| Text.DistinctOfDistinct | nasa-api-project/nasa-api-graphql/database-solution.ts:306 | `Array.from(new Set(...))` has no duplicates and the same elements |

## Left out

- Network, Firestore and SQLite I/O: upstream answers, stored documents and rows are parameters or maps; a failed Firestore or SQLite write (`cacheAPOD`/`cacheNEO` rethrowing) is not modelled.
- `RoverStore.Rover.UpdateRoverData`: the `setTimeout` waits of the retry loop and between rovers are recorded as wait lengths, not slept; the background sweep over the four rovers and its scheduling are not modelled.
- `neoFeedResolver` in `nasa-api-graphql/index.ts`, `populate-database.ts`, the server wiring and `storeRoverMetadata`'s `lastUpdated` timestamp are not part of this model.
- `Promise.all` over the caching writes is modelled as caching in list order; concurrent cache refills and their races are not modelled.
- The real clock: `now`, "today" and the selected week are inputs, and local time is idealised to UTC, so a day is always 24 hours.
- JavaScript `Date` parsing is modelled for `YYYY-MM-DD` strings only, including V8's rollover of a day past the month's end (`2023-02-30` is 2023-03-02); any other string is taken to be Invalid Date.
- `parseFloat` conversions (miss distance, velocity) are opaque values; floating-point diameters are Dafny `real`.
- Rendering: the chart geometry of `MarsRoverPage.tsx`, the orbit and bubble maths and animation of `AsteroidWatchPage.tsx`, `IssGlobePage.tsx`, the drag scrolling, the Stars layout and `handleDownload`.
- `AsteroidWatch`: `formatDate` of the week bounds for the feed query (a timestamp printed as a string) is not modelled.
- `MarsRoverPage.SortBySol`: stability of `Array.sort` holds by construction (insertion before the first item with a larger sol is not proved as a separate lemma).
- `ApodModel.ApodTable.GetCachedApods`: the one-parameter-per-placeholder count is stated through the four exact query strings of `ApodModel.BuildQuery`, not as a count of `?` characters.
- A negative `CACHE_DURATION_HOURS` and SQLite's own date arithmetic beyond `cached_at + hours > now` in seconds.
- Login, routing and the `loading = true` intermediate states of the React pages; Unicode-aware lower-casing (ASCII only).
- `MyFavouritesPage.CardText`: JavaScript's `length` and `slice(0, 90)` count UTF-16 code units while the model counts characters, so an explanation with characters outside the Basic Multilingual Plane is cut at a different place.
- `Text.ParseInt`: `parseInt` without a radix also reads a `0x` prefix as hexadecimal (so "0x10" is 16) and skips every JavaScript white-space character; the model reads decimal digits only and skips only space, tab, line feed and carriage return. This reaches `RoverSync.RetryWaitMs` and `SqlCache.CacheHours`.
- `RoverSync`: a manifest entry always carries a `cameras` list; an entry without one, which `flatMap(p => p.cameras)` in `nasa-api-graphql/index.ts` would turn into an `undefined` camera, is not representable.
- `MarsRoverPage.ItemOf`: `photoCount || 0` is modelled on an integer count (the schema's `Int!`), so a missing count is not representable and the fallback to 0 never applies.
- `AsteroidWatch.Charted`: the chart the page draws uses the as-written week filter, `AsteroidWatch.ChartedAsWritten`; `Charted` is the corrected chart of the finding below.
- The `url` property the REST test expects of each item is upstream's field and is carried through unchanged, not checked.

## Findings

| source | as written | input that shows it | evidently intended | confidence | as-written member | corrected member |
|---|---|---|---|---|---|---|
| nasa-api-project/src/AsteroidWatchPage.tsx:111-114 | approach dates (UTC midnights) are compared with a week start that keeps the selection's time of day | a selection at any time other than midnight, and an asteroid whose `approachDate` is that week's Monday: it is charted on no week | every asteroid approaching Monday to Sunday of the week is shown | medium, not executed | AsteroidWatch.MondayDroppedAsWritten | AsteroidWatch.InWeekIsSevenDays |

The as-written chart is `AsteroidWatch.ChartedAsWritten` (`AsteroidWatch.ChartedAsWrittenAreInWeek`);
the corrected one is `AsteroidWatch.Charted` (`AsteroidWatch.ChartedAreInWeek`).
