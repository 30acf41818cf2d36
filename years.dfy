/**
 The year merge of the aggregation step: the largest `years[0]` and the
 smallest `years[1]` over the room's preferences, rendered as
 `${Math.max(...startYears)}-${Math.min(...endYears)}`. This is the
 intersection of the submitted ranges; nothing checks that it is non-empty.
 */
module YearMerge {
  import opened Wrappers
  import opened Rooms
  import opened Decimal

  /** `Math.max(...preferences.map(p => p.years[0]))`. */
  function MaxStart(prefs: seq<Preference>): (r: int)
    requires |prefs| > 0
    ensures forall i :: 0 <= i < |prefs| ==> prefs[i].years.start <= r
    ensures exists i :: 0 <= i < |prefs| && prefs[i].years.start == r
  {
    if |prefs| == 1 then prefs[0].years.start
    else
      var m := MaxStart(prefs[1..]);
      assert forall i :: 0 < i < |prefs| ==> prefs[1..][i - 1] == prefs[i];
      if prefs[0].years.start >= m then prefs[0].years.start else m
  }

  /** `Math.min(...preferences.map(p => p.years[1]))`. */
  function MinEnd(prefs: seq<Preference>): (r: int)
    requires |prefs| > 0
    ensures forall i :: 0 <= i < |prefs| ==> r <= prefs[i].years.end
    ensures exists i :: 0 <= i < |prefs| && prefs[i].years.end == r
  {
    if |prefs| == 1 then prefs[0].years.end
    else
      var m := MinEnd(prefs[1..]);
      assert forall i :: 0 < i < |prefs| ==> prefs[1..][i - 1] == prefs[i];
      if prefs[0].years.end <= m then prefs[0].years.end else m
  }

  /** A year lies in every submitted range exactly when it lies in the merged one. */
  lemma Intersection(prefs: seq<Preference>, y: int)
    requires |prefs| > 0
    ensures MaxStart(prefs) <= y <= MinEnd(prefs)
        <==> forall i :: 0 <= i < |prefs| ==> prefs[i].years.start <= y <= prefs[i].years.end
  {
  }

  /**
   The merged range is inverted (start after end) exactly when some end
   precedes some start: two submitted ranges do not overlap, or one range is
   itself inverted (years are not validated). No branch of the handler tests
   for it.
   */
  lemma EmptyIntersection(prefs: seq<Preference>)
    requires |prefs| > 0
    ensures MaxStart(prefs) > MinEnd(prefs)
        <==> exists i, j :: 0 <= i < |prefs| && 0 <= j < |prefs| && prefs[j].years.end < prefs[i].years.start
  {
  }

  /** The merged bounds depend only on which preferences were fetched, not on their order. */
  lemma {:induction false} OrderIndependent(p: seq<Preference>, q: seq<Preference>)
    requires |p| > 0 && multiset(p) == multiset(q)
    ensures |q| > 0
    ensures MaxStart(p) == MaxStart(q) && MinEnd(p) == MinEnd(q)
  {
    assert p[0] in multiset(q);
    forall x | x in p ensures x in q {
      assert x in multiset(p);
    }
    forall x | x in q ensures x in p {
      assert x in multiset(q);
    }
    var i :| 0 <= i < |p| && p[i].years.start == MaxStart(p);
    var j :| 0 <= j < |q| && q[j].years.start == MaxStart(q);
    assert p[i] in q && q[j] in p;
    var i' :| 0 <= i' < |p| && p[i'].years.end == MinEnd(p);
    var j' :| 0 <= j' < |q| && q[j'].years.end == MinEnd(q);
    assert p[i'] in q && q[j'] in p;
  }

  /**
   The `year` parameter: `${start}-${end}`. The text reads back as the two
   bounds, negative years included.
   */
  function RangeString(start: int, end: int): (r: string)
    ensures ParseRange(r) == Some((start, end))
  {
    var a, b := IntToString(start), IntToString(end);
    SplitJoined(a, b);
    IntRoundTrip(start);
    IntRoundTrip(end);
    a + "-" + b
  }

  /** `yearRange` of the handler: the largest start and the smallest end, as text. */
  function YearRange(prefs: seq<Preference>): (r: string)
    requires |prefs| > 0
    ensures ParseRange(r) == Some((MaxStart(prefs), MinEnd(prefs)))
  {
    RangeString(MaxStart(prefs), MinEnd(prefs))
  }

  /** The position of the first `-` in `t` at or after `from`, or `|t|`. */
  function DashFrom(t: string, from: nat): (k: nat)
    requires from <= |t|
    ensures from <= k <= |t|
    ensures k < |t| ==> t[k] == '-'
    ensures forall i :: from <= i < k ==> t[i] != '-'
    decreases |t| - from
  {
    if from == |t| || t[from] == '-' then from else DashFrom(t, from + 1)
  }

  /**
   Reads `start-end` back: the separator is the first `-` after the first
   character, since only a leading `-` can belong to the start year.
   */
  function ParseRange(t: string): Option<(int, int)>
  {
    if |t| == 0 then None
    else
      var k := DashFrom(t, 1);
      if k < |t| && IsIntText(t[..k]) && IsIntText(t[k + 1..])
      then Some((ParseInt(t[..k]), ParseInt(t[k + 1..])))
      else None
  }

  /** Integer texts joined by `-` split back at the first `-` after position 0. */
  lemma SplitJoined(a: string, b: string)
    requires IsIntText(a) && IsIntText(b)
    ensures var t := a + "-" + b;
      DashFrom(t, 1) == |a| && t[..|a|] == a && t[|a| + 1..] == b
  {
    var t := a + "-" + b;
    assert forall i :: 1 <= i < |a| ==> t[i] == a[i];
    assert t[|a|] == '-';
  }
}
