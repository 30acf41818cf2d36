/**
 The rows the preference handler reads and writes. The handler keeps no state
 of its own: everything lives in three tables of the hosted store
 (`user_preferences`, `user_sessions`, `room_results`), modelled here as one
 `Store` value whose tables are sequences of rows in insertion order.
 */
module Rooms {

  /** The `years` array of a submission, `[years[0], years[1]]`. */
  datatype YearPair = YearPair(start: int, end: int)

  /** One row of `user_preferences`: the request body, stored as sent. */
  datatype Preference = Preference(userId: string, roomId: string, genres: seq<string>, years: YearPair)

  /** One row of `user_sessions`; the handler only reads this table and never writes it. */
  datatype Session = Session(userId: string, roomId: string, isOnline: bool)

  /** One catalog document, passed through to the store verbatim. */
  datatype Movie = Movie(document: string)

  /** One row of `room_results`. */
  datatype RoomResult = RoomResult(roomId: string, movies: seq<Movie>)

  datatype Store = Store(preferences: seq<Preference>, sessions: seq<Session>, results: seq<RoomResult>)

  /** `select('*').eq('room_id', roomId)` on `user_preferences`: one entry per matching row. */
  function PreferencesOf(rows: seq<Preference>, roomId: string): (r: seq<Preference>)
    ensures |r| <= |rows|
    ensures forall p :: p in r <==> p in rows && p.roomId == roomId
    ensures forall p :: multiset(r)[p] == if p.roomId == roomId then multiset(rows)[p] else 0
  {
    if rows == [] then []
    else
      assert rows == [rows[0]] + rows[1..];
      (if rows[0].roomId == roomId then [rows[0]] else []) + PreferencesOf(rows[1..], roomId)
  }

  /** The positions of the room's online session rows. */
  ghost function OnlineRows(rows: seq<Session>, roomId: string): set<nat>
  {
    set i: nat | i < |rows| && rows[i].roomId == roomId && rows[i].isOnline
  }

  /** The positions of the room's online session rows of user `u`. */
  ghost function OnlineRowsOf(rows: seq<Session>, roomId: string, u: string): set<nat>
  {
    set i: nat | i < |rows| && rows[i].roomId == roomId && rows[i].isOnline && rows[i].userId == u
  }

  /**
   `select('user_id').eq('room_id', roomId).eq('is_online', true)` on
   `user_sessions`: one user id per online session row of the room.
   */
  function OnlineUsers(rows: seq<Session>, roomId: string): (r: seq<string>)
    ensures |r| == |OnlineRows(rows, roomId)|
    ensures forall u :: multiset(r)[u] == |OnlineRowsOf(rows, roomId, u)|
    ensures forall u :: u in r <==> exists s :: s in rows && s.roomId == roomId && s.isOnline && s.userId == u
  {
    if rows == [] then
      assert OnlineRows(rows, roomId) == {};
      assert forall u :: OnlineRowsOf(rows, roomId, u) == {};
      []
    else
      var p, last := rows[..|rows| - 1], rows[|rows| - 1];
      var rest := OnlineUsers(p, roomId);
      assert forall s :: s in rows <==> s in p || s == last;
      OnlineRowsLast(rows, roomId);
      forall u ensures |OnlineRowsOf(rows, roomId, u)| == |OnlineRowsOf(p, roomId, u)|
                         + if last.roomId == roomId && last.isOnline && last.userId == u then 1 else 0 {
        OnlineRowsOfLast(rows, roomId, u);
      }
      if last.roomId == roomId && last.isOnline then rest + [last.userId] else rest
  }

  lemma OnlineRowsLast(rows: seq<Session>, roomId: string)
    requires |rows| > 0
    ensures |OnlineRows(rows, roomId)|
         == |OnlineRows(rows[..|rows| - 1], roomId)|
            + if rows[|rows| - 1].roomId == roomId && rows[|rows| - 1].isOnline then 1 else 0
  {
    var p, last := rows[..|rows| - 1], rows[|rows| - 1];
    var online := last.roomId == roomId && last.isOnline;
    assert OnlineRows(rows, roomId) == OnlineRows(p, roomId) + (if online then {|p|} else {});
    assert |p| !in OnlineRows(p, roomId);
  }

  lemma OnlineRowsOfLast(rows: seq<Session>, roomId: string, u: string)
    requires |rows| > 0
    ensures |OnlineRowsOf(rows, roomId, u)|
         == |OnlineRowsOf(rows[..|rows| - 1], roomId, u)|
            + if rows[|rows| - 1].roomId == roomId && rows[|rows| - 1].isOnline && rows[|rows| - 1].userId == u then 1 else 0
  {
    var p, last := rows[..|rows| - 1], rows[|rows| - 1];
    var counted := last.roomId == roomId && last.isOnline && last.userId == u;
    assert OnlineRowsOf(rows, roomId, u) == OnlineRowsOf(p, roomId, u) + (if counted then {|p|} else {});
    assert |p| !in OnlineRowsOf(p, roomId, u);
  }
}
