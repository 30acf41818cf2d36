/**
 Worked instances of the aggregation step on small rooms.
 */
module Scenarios {
  import Decimal
  import opened Rooms
  import opened GenreMerge
  import opened YearMerge
  import opened CatalogQuery
  import opened Submission

  /** Genres `{action, comedy}` and `{comedy, drama}` merge to `action, comedy, drama`. */
  lemma GenreUnionExample()
    ensures MergedGenres([Preference("u1", "r", ["action", "comedy"], YearPair(2000, 2010)),
                          Preference("u2", "r", ["comedy", "drama"], YearPair(2000, 2010))])
         == ["action", "comedy", "drama"]
  {
    var prefs := [Preference("u1", "r", ["action", "comedy"], YearPair(2000, 2010)),
                  Preference("u2", "r", ["comedy", "drama"], YearPair(2000, 2010))];
    assert prefs[1..][1..] == [];
    var s: seq<string> := ["action", "comedy", "comedy", "drama"];
    assert AllGenres(prefs) == s;
    var s1, s2, s3 := s[..1], s[..2], s[..3];
    assert s1[..0] == [] && s2[..1] == s1 && s3[..2] == s2 && s[..3] == s3;
    assert Distinct(s1) == ["action"];
    assert Distinct(s2) == ["action", "comedy"];
    assert Distinct(s3) == ["action", "comedy"];
  }

  /**
   Ranges that do not overlap give an inverted `year` value, and the request
   is still built with it.
   */
  lemma DisjointRangesExample()
    ensures var prefs := [Preference("u1", "r", ["drama"], YearPair(2000, 2005)),
                          Preference("u2", "r", ["drama"], YearPair(2010, 2015))];
      && MaxStart(prefs) == 2010 && MinEnd(prefs) == 2005
      && YearRange(prefs) == "2010-2005"
      && RequestFor(prefs)[2] == ("year", "2010-2005")
  {
    var prefs := [Preference("u1", "r", ["drama"], YearPair(2000, 2005)),
                  Preference("u2", "r", ["drama"], YearPair(2010, 2015))];
    assert prefs[1..] == [Preference("u2", "r", ["drama"], YearPair(2010, 2015))];
    assert MaxStart(prefs) == 2010 && MinEnd(prefs) == 2005;
    InvertedRangeText();
    assert YearRange(prefs) == "2010-2005";
    assert RequestFor(prefs)[..3][2] == ("year", "2010-2005");
  }

  /** The decimal texts of the two bounds of the inverted range. */
  lemma InvertedRangeText()
    ensures Decimal.IntToString(2010) + "-" + Decimal.IntToString(2005) == "2010-2005"
  {
    assert Decimal.IntToString(2010) == "2010" by {
      assert Decimal.NatToString(20) == "20";
      assert Decimal.NatToString(201) == "201";
    }
    assert Decimal.IntToString(2005) == "2005" by {
      assert Decimal.NatToString(20) == "20";
      assert Decimal.NatToString(200) == "200";
    }
  }

  /**
   A one-user room whose user is online in two sessions: the user's own
   submission reads back one preference against two online rows, so the room
   stays at `waiting`.
   */
  method DoubleSessionScenario() returns (response: Response)
    ensures response == Waiting
  {
    var sessions := [Session("u1", "r", true), Session("u1", "r", true)];
    var store := Store([], sessions, []);
    var row := Preference("u1", "r", ["drama"], YearPair(2000, 2010));
    assert |RoomPreferences(store, row)| == 1 by {
      assert store.preferences + [row] == [row];
      assert [row][1..] == [];
    }
    assert |OnlineUsers(sessions, "r")| == 2 by {
      assert sessions[..1][..0] == [];
    }
    var after, request;
    response, after, request := SubmitPreferences(store, StoreFaults(false, false, false, false),
                                                  q => CatalogFailed, "u1", "r", ["drama"], YearPair(2000, 2010));
  }
}
