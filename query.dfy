/**
 The catalog search request of the aggregation step. The handler fills a
 `URLSearchParams` buffer by successive `append` calls, three of them inside
 `forEach` loops, and sends its serialisation to the catalog's movie search.
 The buffer is modelled as the ordered list of its key/value entries; the
 percent-encoding of `toString()` is not part of this model.
 */
module CatalogQuery {

  /** The entries of a `URLSearchParams`, in insertion order. */
  type Query = seq<(string, string)>

  const SelectFields: seq<string> := ["id", "name", "year", "movieLength", "rating", "description", "genres", "poster"]
  const NotNullFields: seq<string> := ["name", "description", "poster.url"]

  /** One entry `(key, v)` per value `v`, in order. */
  function Pairs(key: string, values: seq<string>): (q: Query)
  {
    seq(|values|, i requires 0 <= i < |values| => (key, values[i]))
  }

  /**
   The request the handler builds: paging, the merged year range, one
   `genres.name` per merged genre, the field selection, the not-null
   constraints, the sort order and the content type.
   */
  function CatalogRequest(yearRange: string, genres: seq<string>): (q: Query)
    ensures |q| == |genres| + 17
    ensures q[..3] == [("page", "1"), ("limit", "15"), ("year", yearRange)]
    ensures forall i :: 0 <= i < |genres| ==> q[3 + i] == ("genres.name", genres[i])
    ensures forall i :: 0 <= i < 8 ==> q[3 + |genres| + i] == ("selectFields", SelectFields[i])
    ensures forall i :: 0 <= i < 3 ==> q[11 + |genres| + i] == ("notNullFields", NotNullFields[i])
    ensures q[14 + |genres|..] == [("sortField", "rating.kp"), ("sortType", "-1"), ("type", "movie")]
  {
    [("page", "1"), ("limit", "15"), ("year", yearRange)]
    + Pairs("genres.name", genres)
    + Pairs("selectFields", SelectFields)
    + Pairs("notNullFields", NotNullFields)
    + [("sortField", "rating.kp"), ("sortType", "-1"), ("type", "movie")]
  }

  /** `params.getAll(key)`: the values under `key`, in order. */
  function Values(q: Query, key: string): seq<string>
  {
    if q == [] then []
    else (if q[0].0 == key then [q[0].1] else []) + Values(q[1..], key)
  }

  /** `getAll(key)` returns exactly the values stored under `key`. */
  lemma {:induction false} ValuesMembers(q: Query, key: string)
    ensures forall v :: v in Values(q, key) <==> (key, v) in q
  {
    if q != [] {
      ValuesMembers(q[1..], key);
      assert forall e :: e in q <==> e == q[0] || e in q[1..];
    }
  }

  lemma {:induction false} ValuesConcat(a: Query, b: Query, key: string)
    ensures Values(a + b, key) == Values(a, key) + Values(b, key)
  {
    if a == [] {
      assert a + b == b;
    } else {
      assert (a + b)[1..] == a[1..] + b;
      ValuesConcat(a[1..], b, key);
    }
  }

  lemma {:induction false} ValuesPairs(k: string, values: seq<string>, key: string)
    ensures Values(Pairs(k, values), key) == if k == key then values else []
  {
    if values != [] {
      assert Pairs(k, values)[1..] == Pairs(k, values[1..]);
      ValuesPairs(k, values[1..], key);
    }
  }

  const RequestHead: Query := [("page", "1"), ("limit", "15")]
  const RequestTail: Query := [("sortField", "rating.kp"), ("sortType", "-1"), ("type", "movie")]

  lemma HeadTailValues(key: string)
    ensures Values(RequestHead, key) == (if key == "page" then ["1"] else []) + (if key == "limit" then ["15"] else [])
    ensures Values(RequestTail, key)
         == (if key == "sortField" then ["rating.kp"] else []) + (if key == "sortType" then ["-1"] else [])
            + (if key == "type" then ["movie"] else [])
  {
    assert RequestHead[1..][1..] == [];
    assert RequestTail[1..][1..][1..] == [];
    var t1, t2 := RequestTail[1..], RequestTail[1..][1..];
    assert Values(t2, key) == (if key == "type" then ["movie"] else []);
    assert Values(t1, key) == (if key == "sortType" then ["-1"] else []) + Values(t2, key);
  }

  lemma RequestSplit(yearRange: string, genres: seq<string>, key: string)
    ensures Values(CatalogRequest(yearRange, genres), key)
         == Values(RequestHead, key) + (if key == "year" then [yearRange] else [])
            + (if key == "genres.name" then genres else [])
            + (if key == "selectFields" then SelectFields else [])
            + (if key == "notNullFields" then NotNullFields else [])
            + Values(RequestTail, key)
  {
    var head := RequestHead + [("year", yearRange)];
    var g, s, n := Pairs("genres.name", genres), Pairs("selectFields", SelectFields), Pairs("notNullFields", NotNullFields);
    assert CatalogRequest(yearRange, genres) == head + g + s + n + RequestTail;
    var vh := Values(RequestHead, key) + (if key == "year" then [yearRange] else []);
    var vg: seq<string> := if key == "genres.name" then genres else [];
    var vs: seq<string> := if key == "selectFields" then SelectFields else [];
    var vn: seq<string> := if key == "notNullFields" then NotNullFields else [];
    ValuesConcat(RequestHead, [("year", yearRange)], key);
    assert Values(head, key) == vh;
    ValuesPairs("genres.name", genres, key);
    ValuesConcat(head, g, key);
    assert Values(head + g, key) == vh + vg;
    ValuesPairs("selectFields", SelectFields, key);
    ValuesConcat(head + g, s, key);
    assert Values(head + g + s, key) == vh + vg + vs;
    ValuesPairs("notNullFields", NotNullFields, key);
    ValuesConcat(head + g + s, n, key);
    assert Values(head + g + s + n, key) == vh + vg + vs + vn;
    ValuesConcat(head + g + s + n, RequestTail, key);
  }

  /** `getAll` under the keys of the paging entries and the year range. */
  lemma RequestValuesHead(yearRange: string, genres: seq<string>)
    ensures var q := CatalogRequest(yearRange, genres);
      && Values(q, "page") == ["1"]
      && Values(q, "limit") == ["15"]
      && Values(q, "year") == [yearRange]
  {
    var q := CatalogRequest(yearRange, genres);
    assert Values(q, "page") == ["1"] by {
      HeadTailValues("page");
      RequestSplit(yearRange, genres, "page");
    }
    assert Values(q, "limit") == ["15"] by {
      HeadTailValues("limit");
      RequestSplit(yearRange, genres, "limit");
    }
    assert Values(q, "year") == [yearRange] by {
      HeadTailValues("year");
      RequestSplit(yearRange, genres, "year");
    }
  }

  /** `getAll` under the keys of the genre and field lists. */
  lemma RequestValuesLists(yearRange: string, genres: seq<string>)
    ensures var q := CatalogRequest(yearRange, genres);
      && Values(q, "genres.name") == genres
      && Values(q, "selectFields") == SelectFields
      && Values(q, "notNullFields") == NotNullFields
  {
    var q := CatalogRequest(yearRange, genres);
    assert Values(q, "genres.name") == genres by {
      HeadTailValues("genres.name");
      RequestSplit(yearRange, genres, "genres.name");
    }
    assert Values(q, "selectFields") == SelectFields by {
      HeadTailValues("selectFields");
      RequestSplit(yearRange, genres, "selectFields");
    }
    assert Values(q, "notNullFields") == NotNullFields by {
      HeadTailValues("notNullFields");
      RequestSplit(yearRange, genres, "notNullFields");
    }
  }

  /** `getAll` under the keys of the sort order and the content type. */
  lemma RequestValuesTail(yearRange: string, genres: seq<string>)
    ensures var q := CatalogRequest(yearRange, genres);
      && Values(q, "sortField") == ["rating.kp"]
      && Values(q, "sortType") == ["-1"]
      && Values(q, "type") == ["movie"]
  {
    var q := CatalogRequest(yearRange, genres);
    assert Values(q, "sortField") == ["rating.kp"] by {
      HeadTailValues("sortField");
      RequestSplit(yearRange, genres, "sortField");
    }
    assert Values(q, "sortType") == ["-1"] by {
      HeadTailValues("sortType");
      RequestSplit(yearRange, genres, "sortType");
    }
    assert Values(q, "type") == ["movie"] by {
      HeadTailValues("type");
      RequestSplit(yearRange, genres, "type");
    }
  }

  /** `getAll` on the request: the values under each key it uses. */
  lemma RequestValues(yearRange: string, genres: seq<string>)
    ensures var q := CatalogRequest(yearRange, genres);
      && Values(q, "page") == ["1"]
      && Values(q, "limit") == ["15"]
      && Values(q, "year") == [yearRange]
      && Values(q, "genres.name") == genres
      && Values(q, "selectFields") == SelectFields
      && Values(q, "notNullFields") == NotNullFields
      && Values(q, "sortField") == ["rating.kp"]
      && Values(q, "sortType") == ["-1"]
      && Values(q, "type") == ["movie"]
  {
    RequestValuesHead(yearRange, genres);
    RequestValuesLists(yearRange, genres);
    RequestValuesTail(yearRange, genres);
  }

  /** The `URLSearchParams` buffer. */
  class SearchParams {
    var entries: Query

    constructor ()
      ensures entries == []
    {
      entries := [];
    }

    /** `params.append(key, value)`. */
    method Append(key: string, value: string)
      modifies this
      ensures entries == old(entries) + [(key, value)]
    {
      entries := entries + [(key, value)];
    }

    /** `values.forEach(v => params.append(key, v))`. */
    method AppendEach(key: string, values: seq<string>)
      modifies this
      ensures entries == old(entries) + Pairs(key, values)
    {
      for i := 0 to |values|
        invariant entries == old(entries) + Pairs(key, values[..i])
      {
        Append(key, values[i]);
        assert Pairs(key, values[..i + 1]) == Pairs(key, values[..i]) + [(key, values[i])];
      }
      assert values[..|values|] == values;
    }
  }

  /** Lines 58-67 of the handler: fill a fresh buffer and hand over its entries. */
  method BuildCatalogQuery(yearRange: string, genres: seq<string>) returns (q: Query)
    ensures q == CatalogRequest(yearRange, genres)
  {
    var params := new SearchParams();
    params.Append("page", "1");
    params.Append("limit", "15");
    params.Append("year", yearRange);
    params.AppendEach("genres.name", genres);
    params.AppendEach("selectFields", ["id", "name", "year", "movieLength", "rating", "description", "genres", "poster"]);
    params.AppendEach("notNullFields", ["name", "description", "poster.url"]);
    params.Append("sortField", "rating.kp");
    params.Append("sortType", "-1");
    params.Append("type", "movie");
    q := params.entries;
  }
}
