/**
 The genre merge of the aggregation step: `[...new Set(preferences.flatMap(p => p.genres))]`.
 `flatMap` concatenates the genre lists in fetch order; a JavaScript `Set`
 keeps one copy of each value, in the order in which it was first inserted.
 */
module GenreMerge {
  import opened Rooms

  /** `preferences.flatMap(p => p.genres)`. */
  function AllGenres(prefs: seq<Preference>): (r: seq<string>)
    ensures forall g :: g in r <==> exists i :: 0 <= i < |prefs| && g in prefs[i].genres
  {
    if prefs == [] then []
    else
      var rest := AllGenres(prefs[1..]);
      assert forall i :: 0 < i < |prefs| ==> prefs[1..][i - 1] == prefs[i];
      prefs[0].genres + rest
  }

  /**
   The values of a `Set` built from `s`, in iteration order: each insertion of
   a value already present leaves the set as it was.
   */
  function Distinct(s: seq<string>): (r: seq<string>)
    ensures forall x :: x in r <==> x in s
    ensures NoDuplicates(r)
  {
    if s == [] then []
    else
      var d := Distinct(s[..|s| - 1]);
      assert forall x :: x in s <==> x in s[..|s| - 1] || x == s[|s| - 1];
      if s[|s| - 1] in d then d else d + [s[|s| - 1]]
  }

  /**
   `allGenres` of the handler: every genre of every preference, each once,
   in the order of its first appearance across the preferences.
   */
  function MergedGenres(prefs: seq<Preference>): (r: seq<string>)
    ensures forall g :: g in r <==> exists i :: 0 <= i < |prefs| && g in prefs[i].genres
    ensures NoDuplicates(r)
    ensures FirstAppearanceOrder(AllGenres(prefs), r)
  {
    DistinctOrder(AllGenres(prefs));
    Distinct(AllGenres(prefs))
  }

  predicate NoDuplicates(r: seq<string>)
  {
    forall i, j :: 0 <= i < j < |r| ==> r[i] != r[j]
  }

  /** The position of the first occurrence of `x` in `s`. */
  function FirstIndex(s: seq<string>, x: string): (k: nat)
    requires x in s
    ensures k < |s| && s[k] == x
    ensures forall j :: 0 <= j < k ==> s[j] != x
  {
    if s[0] == x then 0 else 1 + FirstIndex(s[1..], x)
  }

  /** The values of `r` come in the order of their first appearance in `s`. */
  predicate FirstAppearanceOrder(s: seq<string>, r: seq<string>)
    requires forall x :: x in r ==> x in s
  {
    forall i, j :: 0 <= i < j < |r| ==> FirstIndex(s, r[i]) < FirstIndex(s, r[j])
  }

  lemma FirstIndexExtend(p: seq<string>, c: string, x: string)
    requires x in p
    ensures FirstIndex(p + [c], x) == FirstIndex(p, x)
  {
    var s := p + [c];
    var k, m := FirstIndex(s, x), FirstIndex(p, x);
    assert s[m] == x;
    assert k <= m < |p|;
    assert p[k] == s[k];
  }

  /** A `Set` iterates its values in the order they were first inserted. */
  lemma {:induction false} DistinctOrder(s: seq<string>)
    ensures FirstAppearanceOrder(s, Distinct(s))
  {
    if s != [] {
      var p, c := s[..|s| - 1], s[|s| - 1];
      assert s == p + [c];
      var d := Distinct(p);
      DistinctOrder(p);
      forall x | x in d
        ensures FirstIndex(s, x) == FirstIndex(p, x) < |p|
      {
        FirstIndexExtend(p, c, x);
      }
      if c !in d {
        assert FirstIndex(s, c) == |p|;
      }
    }
  }

  lemma EmptyWithoutMembers(b: seq<string>)
    ensures (forall x :: x !in b) ==> b == []
  {
    if b != [] {
      assert b[0] in b;
    }
  }

  lemma HeadFirst(s: seq<string>, a: seq<string>)
    requires forall x :: x in a ==> x in s
    requires FirstAppearanceOrder(s, a)
    ensures forall i :: 0 <= i < |a| ==> FirstIndex(s, a[0]) <= FirstIndex(s, a[i])
  {
  }

  /**
   Two duplicate-free lists with the same members, both in first-appearance
   order of `s`, are equal.
   */
  lemma {:induction false} OrderedUnique(s: seq<string>, a: seq<string>, b: seq<string>)
    requires forall x :: x in a ==> x in s
    requires forall x :: x in a <==> x in b
    requires NoDuplicates(a) && NoDuplicates(b)
    requires FirstAppearanceOrder(s, a) && FirstAppearanceOrder(s, b)
    ensures a == b
    decreases |a|
  {
    if a == [] {
      EmptyWithoutMembers(b);
    } else {
      assert a[0] in b;
      var k :| 0 <= k < |b| && b[k] == a[0];
      assert b[0] in a;
      var m :| 0 <= m < |a| && a[m] == b[0];
      // each head has the least first index among the common members
      HeadFirst(s, a);
      HeadFirst(s, b);
      assert FirstIndex(s, a[0]) <= FirstIndex(s, a[m]) == FirstIndex(s, b[0]);
      assert FirstIndex(s, b[0]) <= FirstIndex(s, b[k]) == FirstIndex(s, a[0]);
      assert a[0] == s[FirstIndex(s, a[0])] == b[0];
      var a', b' := a[1..], b[1..];
      forall x ensures x in a' <==> x in b' {
        assert x in a' <==> x in a && x != a[0];
        assert x in b' <==> x in b && x != b[0];
      }
      assert FirstAppearanceOrder(s, a') by {
        forall i, j | 0 <= i < j < |a'| ensures FirstIndex(s, a'[i]) < FirstIndex(s, a'[j]) {
          assert a'[i] == a[i + 1] && a'[j] == a[j + 1];
        }
      }
      assert FirstAppearanceOrder(s, b') by {
        forall i, j | 0 <= i < j < |b'| ensures FirstIndex(s, b'[i]) < FirstIndex(s, b'[j]) {
          assert b'[i] == b[i + 1] && b'[j] == b[j + 1];
        }
      }
      OrderedUnique(s, a', b');
      assert a == [a[0]] + a' && b == [b[0]] + b';
    }
  }

  /**
   Membership, absence of duplicates and first-appearance order determine
   the merged list: any list with the three properties is `Distinct(s)`.
   */
  lemma DistinctUnique(s: seq<string>, r: seq<string>)
    requires forall x :: x in r <==> x in s
    requires NoDuplicates(r)
    requires FirstAppearanceOrder(s, r)
    ensures r == Distinct(s)
  {
    DistinctOrder(s);
    OrderedUnique(s, r, Distinct(s));
  }
}
