/**
 The `POST /submit-preferences` handler: insert the submitted preference,
 read back the room's preferences and online users, and, when every online
 user has submitted, merge the preferences into one catalog request, send it
 and store the answer as the room's result.

 The store and the catalog are collaborators: the store is a value, whether
 each of its four calls fails is a parameter (`StoreFaults`), and the catalog
 is a function from the request to its answer.
 */
module Submission {
  import opened Wrappers
  import opened Rooms
  import opened GenreMerge
  import opened YearMerge
  import opened CatalogQuery

  /** The JSON body sent back: 200 for `Waiting` and `Ready`, 500 for `ServerError`. */
  datatype Response = Waiting | Ready | ServerError(message: string)

  /** Which store calls report an error on this run; a call that fails writes nothing. */
  datatype StoreFaults = StoreFaults(insertPreference: bool, selectPreferences: bool, selectSessions: bool, insertResult: bool)

  /** What the catalog search gives back: `response.data.docs`, or a thrown error. */
  datatype CatalogAnswer = Docs(movies: seq<Movie>) | CatalogFailed

  const SavePreferencesFailed := "Failed to save preferences"
  const FetchPreferencesFailed := "Failed to fetch preferences"
  const FetchUsersFailed := "Failed to fetch users"
  const SaveResultsFailed := "Failed to save results"
  const CatalogCallFailed := "Failed to fetch movies from Kinopoisk"

  /**
   Every online user of the room has submitted, and someone has: a room with
   no online session row never reaches it.
   */
  predicate Quorum(preferenceCount: nat, userCount: nat): (r: bool)
    ensures r ==> userCount > 0
    ensures userCount == 0 ==> !r
  {
    preferenceCount == userCount && preferenceCount > 0
  }

  /** The preferences read back after `row` was inserted. */
  function RoomPreferences(store: Store, row: Preference): seq<Preference>
  {
    PreferencesOf(store.preferences + [row], row.roomId)
  }

  /** The request built from a room's preferences. */
  function RequestFor(prefs: seq<Preference>): Query
    requires |prefs| > 0
  {
    CatalogRequest(YearRange(prefs), MergedGenres(prefs))
  }

  /** No store call before the quorum test failed. */
  predicate ReachesQuorumTest(faults: StoreFaults)
  {
    !faults.insertPreference && !faults.selectPreferences && !faults.selectSessions
  }

  method SubmitPreferences(store: Store, faults: StoreFaults, catalog: Query -> CatalogAnswer,
                           userId: string, roomId: string, genres: seq<string>, years: YearPair)
    returns (response: Response, after: Store, request: Option<Query>)
    ensures after.sessions == store.sessions
    // the preference row stays once inserted, whatever fails later
    ensures after.preferences == if faults.insertPreference then store.preferences
                                 else store.preferences + [Preference(userId, roomId, genres, years)]
    ensures faults.insertPreference ==> response == ServerError(SavePreferencesFailed)
    ensures !faults.insertPreference && faults.selectPreferences ==> response == ServerError(FetchPreferencesFailed)
    ensures !faults.insertPreference && !faults.selectPreferences && faults.selectSessions
            ==> response == ServerError(FetchUsersFailed)
    // aggregation runs exactly when the quorum test passes
    ensures request.Some? <==>
              ReachesQuorumTest(faults)
              && Quorum(|RoomPreferences(store, Preference(userId, roomId, genres, years))|,
                        |OnlineUsers(store.sessions, roomId)|)
    ensures response == Waiting <==>
              ReachesQuorumTest(faults)
              && !Quorum(|RoomPreferences(store, Preference(userId, roomId, genres, years))|,
                         |OnlineUsers(store.sessions, roomId)|)
    ensures request.Some? ==>
              var prefs := RoomPreferences(store, Preference(userId, roomId, genres, years));
              |prefs| > 0 && request.value == RequestFor(prefs)
    ensures request.Some? && catalog(request.value).CatalogFailed? ==> response == ServerError(CatalogCallFailed)
    ensures request.Some? && catalog(request.value).Docs? && faults.insertResult
            ==> response == ServerError(SaveResultsFailed)
    ensures response == Ready <==> request.Some? && catalog(request.value).Docs? && !faults.insertResult
    // a result row is written only on `Ready`, holding the catalog's documents
    ensures after.results == if response == Ready
                             then store.results + [RoomResult(roomId, catalog(request.value).movies)]
                             else store.results
  {
    after, request := store, None;
    var row := Preference(userId, roomId, genres, years);
    if faults.insertPreference {
      return ServerError(SavePreferencesFailed), after, request;
    }
    after := after.(preferences := after.preferences + [row]);

    if faults.selectPreferences {
      return ServerError(FetchPreferencesFailed), after, request;
    }
    var preferences := PreferencesOf(after.preferences, roomId);

    if faults.selectSessions {
      return ServerError(FetchUsersFailed), after, request;
    }
    var users := OnlineUsers(after.sessions, roomId);

    if |preferences| == |users| && |preferences| > 0 {
      var allGenres := MergedGenres(preferences);
      var yearRange := RangeString(MaxStart(preferences), MinEnd(preferences));
      var params := BuildCatalogQuery(yearRange, allGenres);
      request := Some(params);
      match catalog(params)
      case CatalogFailed =>
        return ServerError(CatalogCallFailed), after, request;
      case Docs(movies) =>
        if faults.insertResult {
          return ServerError(SaveResultsFailed), after, request;
        }
        after := after.(results := after.results + [RoomResult(roomId, movies)]);
        return Ready, after, request;
    }
    response := Waiting;
  }

  /**
   The submitter's own row is among those read back, so once the insert has
   succeeded the `> 0` half of the quorum test always holds, and the test
   reduces to: as many preference rows as online session rows in the room.
   */
  lemma SubmitterCounted(store: Store, row: Preference)
    ensures row in RoomPreferences(store, row)
    ensures |RoomPreferences(store, row)| > 0
    ensures Quorum(|RoomPreferences(store, row)|, |OnlineUsers(store.sessions, row.roomId)|)
        <==> |RoomPreferences(store, row)| == |OnlineRows(store.sessions, row.roomId)|
  {
    assert row in store.preferences + [row];
  }

  /**
   The contents of the request built for a room: under `genres.name`, every
   genre of every preference once, in first-appearance order; under `year`,
   one value whose inverse rendering is the largest start and the smallest end.
   */
  lemma RequestContents(prefs: seq<Preference>)
    requires |prefs| > 0
    ensures Values(RequestFor(prefs), "genres.name") == MergedGenres(prefs)
    ensures forall i, g :: 0 <= i < |prefs| && g in prefs[i].genres ==> g in Values(RequestFor(prefs), "genres.name")
    ensures |Values(RequestFor(prefs), "year")| == 1
    ensures ParseRange(Values(RequestFor(prefs), "year")[0]) == Some((MaxStart(prefs), MinEnd(prefs)))
  {
    RequestValues(YearRange(prefs), MergedGenres(prefs));
  }
}
