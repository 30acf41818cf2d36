# Movie-room preference aggregation, modelled in Dafny

This project models the `POST /submit-preferences` handler of the movie
search server (`server.js`). A room is a group of users. Each user submits
preferred genres and a `[start, end]` year range. The handler stores the
submission, then reads back the room's preferences and its online users.
When every online user has submitted (the quorum test), it merges the
preferences into one search request for the kinopoisk.dev `/v1.4/movie`
catalog, sends it, and stores the returned documents as the room's result.

Modules, one per part of the handler:

- `Rooms` (`rooms.dfy`): the rows of the three store tables and the two
  filtered selects the handler issues.
- `GenreMerge` (`genres.dfy`): `[...new Set(preferences.flatMap(p => p.genres))]`.
  It is specified independently of the `Set`: the merged list has exactly the
  submitted genres, no duplicates, and first-appearance order. Any list with
  those three properties is the merged one (`DistinctUnique`).
- `YearMerge` (`years.dfy`): the largest start and the smallest end, i.e. the
  intersection of the submitted ranges, rendered as `start-end`. `ParseRange`
  reads the text back and is the inverse the rendering is proved against.
- `Decimal` (`decimal.dfy`): the decimal rendering of an integer by a template
  literal, with its inverse.
- `CatalogQuery` (`query.dfy`): the `URLSearchParams` buffer as a class whose
  `entries` field the `append` calls extend, the three `forEach` loops as a loop
  method, and the exact entry list the handler produces.
- `Submission` (`submission.dfy`): the handler as a method with early returns.
  The store is a value. Whether each of its four calls fails is a parameter.
  The catalog is a function from the request to its answer.
- `Scenarios` (`scenarios.dfy`): three worked rooms.

What the code does not do, and the model therefore does not do either:

- It validates nothing in the request body.
- It does not coalesce adjacent year ranges, choose a widest range, or list
  extra years: it only intersects the ranges.
- It has no status endpoint in `server.js`.
- It never checks that the intersection is non-empty. When two ranges do not
  overlap, or one submitted range is itself inverted, an inverted range such
  as `2010-2005` is sent
  (`EmptyIntersection`, `DisjointRangesExample`).

The quorum test compares two row counts. A duplicate submission that the
store accepts is counted twice, and a user online in two sessions is counted
twice (`PreferencesOf`, `OnlineUsers`, `DoubleSessionScenario`).

In the model the store returns the row the handler has just written, and
nothing deletes it before the read. Under that assumption the submitter's
own row is read back, so the `preferences.length > 0` half of the quorum test
always holds (`SubmitterCounted`). A store without read-your-writes, or the
room-cleanup job deleting rows in between, could break this.

## Model

| member | source | states |
|---|---|---|
| Rooms.PreferencesOf | server.js:27-30 | the rows read back are exactly the stored preference rows whose room is the submitter's room, each as many times as it is stored, so `preferences.length` counts rows |
| Rooms.OnlineUsers | server.js:37-41 | one user id per online session row of the room: each id as many times as that user has online session rows in the room, so `users.length` counts those rows |
| GenreMerge.AllGenres | server.js:51 | `flatMap`: a genre is in the flattened list exactly when some preference lists it |
| GenreMerge.Distinct | server.js:51 | the `Set` keeps exactly the values of its input, each once |
| GenreMerge.DistinctOrder | server.js:51 | the `Set` yields its values in the order of their first appearance in the input |
| GenreMerge.DistinctUnique | server.js:51 | membership, no duplicates and first-appearance order together determine the merged list |
| GenreMerge.MergedGenres | server.js:51 | `allGenres` holds every genre of every preference and nothing else, without duplicates, in first-appearance order across preferences in fetch order |
| YearMerge.MaxStart | server.js:53-55 | `Math.max` of the starts is at least every preference's start and equals one of them |
| YearMerge.MinEnd | server.js:54-55 | `Math.min` of the ends is at most every preference's end and equals one of them |
| YearMerge.Intersection | server.js:53-55 | a year lies between the merged bounds exactly when it lies in every submitted range |
| YearMerge.EmptyIntersection | server.js:55 | the merged range is inverted exactly when some preference's end precedes some preference's start, possibly its own (years are not validated) |
| YearMerge.OrderIndependent | server.js:53-55 | the merged bounds do not depend on the order in which the preferences are fetched |
| YearMerge.RangeString | server.js:55 | the `start-end` text reads back as the two bounds, negative years included |
| YearMerge.YearRange | server.js:53-55 | `yearRange` reads back as the largest submitted start and the smallest submitted end |
| Decimal.IntToString | server.js:55 | the rendering starts with `-` exactly for negative numbers, and what follows the sign is canonical decimal: at least one digit, digits only, no leading zero |
| Decimal.IntRoundTrip | server.js:55 | reading the rendered integer back gives the integer |
| CatalogQuery.CatalogRequest | server.js:58-67 | the request has 17 entries plus one per genre: page, limit, year; one `genres.name` per merged genre in order; the 8 select fields; the 3 not-null fields; sort field, sort type and type |
| CatalogQuery.RequestValues | server.js:58-67 | per key, the values under it (`getAll`) are page 1, limit 15, the one year range, exactly the merged genres, the select and not-null field lists, `rating.kp`, `-1` and `movie` |
| CatalogQuery.SearchParams.constructor | server.js:58 | a new buffer is empty |
| CatalogQuery.SearchParams.Append | server.js:59-61 | `append` adds one entry at the end and changes nothing else |
| CatalogQuery.SearchParams.AppendEach | server.js:62-64 | the `forEach` loop adds one entry per value, in order, after the existing entries |
| CatalogQuery.BuildCatalogQuery | server.js:58-67 | the buffer filled step by step holds exactly the request layout above |
| Submission.SubmitPreferences | server.js:15-93 | each failed store call returns its own error and stops; the preference row stays once inserted; the request is sent exactly when the quorum test passes, built from the room's preferences; `waiting` exactly when the test fails; `ready` exactly when the catalog answers and the result insert succeeds; a result row holding the catalog's documents is written only then; sessions are never written |
| Submission.Quorum | server.js:49 | the quorum test never passes in a room with no online session row |
| Submission.SubmitterCounted | server.js:17-49 | the submitter's own row is among the preferences read back, so at least one is, and the quorum test passes exactly when the room has as many preference rows as online session rows |
| Submission.RequestContents | server.js:51-67 | the request carries every submitted genre, exactly the merged list, under `genres.name`, and one `year` value whose inverse rendering is the largest start and the smallest end |
| Scenarios.GenreUnionExample | server.js:51 | `{action, comedy}` and `{comedy, drama}` merge to `action, comedy, drama` |
| Scenarios.DoubleSessionScenario | server.js:37-49 | a one-user room whose user is online in two sessions answers `waiting` to that user's submission |
| Scenarios.DisjointRangesExample | server.js:53-61 | ranges 2000-2005 and 2010-2015 give the year value `2010-2005`, and it is sent as the third entry |

## Left out

- Express routing, JSON body parsing and `app.listen` (server.js:7-8, 100-101): HTTP plumbing.
- The hosted store client (server.js:10, 17-19, 27-30, 37-41, 77-79): a library. Each call is either an error or a success. A failed insert is taken to write nothing. Selects are taken to return rows in insertion order, since the code sets no ordering.
- Duplicate submissions by one user: whether the insert rejects them depends on the store's constraints, which are not visible. The model covers both outcomes through the insert fault flag. An accepted duplicate is a second row and is counted twice.
- The HTTP call to the catalog, its API-key header and the percent-encoding done by `URLSearchParams.toString()` (server.js:70-72): network I/O and library serialisation. The request is modelled as its ordered key/value entries.
- Malformed request bodies, which the code uses without validation. The model types `genres` as a list of strings and `years` as a pair of integers, which drops these paths:
  - A `genres` value that is not an array, such as `null` or a string, does not throw. `flatMap` keeps it as one element, and `append` turns it into text such as `genres.name=null` (server.js:51, 62).
  - A `years` array with fewer than two numbers does not throw either. `Math.min` over `undefined` gives `NaN`, so the year value becomes text such as `2000-NaN` (server.js:53-55).
  - Only a `null` or absent `years` throws, at `p.years[0]`. That reaches the outer `catch`, which returns `Server error` (server.js:94-96). That path is not modelled.
- Logging through `console.error`: no observable effect on the response or the store.
- JavaScript number semantics: years are unbounded integers. `Math.max`/`Math.min` over non-numbers or `NaN`, and exponent notation for numbers of 1e21 or more, are not modelled.
- Two users who submit at the same time can both pass the quorum test and both write a result row. Each call is modelled alone, so this race is not modelled.
- `supabase/functions/clean-inactive-rooms/index.ts`: it only invokes a store-side procedure, and that procedure's logic is not part of this model.
