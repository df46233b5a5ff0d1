/** `filterRows`: the search box narrows the loaded records to those with a
    field that contains the query, ignoring case. */
module Filtering {
  import opened Text
  import opened Seqs
  import opened Records

  /** Some field of `row`, lower-cased, contains `q`. */
  predicate Matches(row: Record, q: string)
    ensures Matches(row, q) ==> row != []
    ensures q == [] ==> (Matches(row, q) <==> row != [])
  {
    assert q == [] && row != [] ==> Contains(Lower(row[0].value), q);
    exists i :: 0 <= i < |row| && Contains(Lower(row[i].value), q)
  }

  /** The test `filterRows` applies to each record for a query. */
  function MatchesQuery(query: string): Record -> bool {
    row => Matches(row, Lower(query))
  }

  /** `filterRows(query)` over the loaded records `allRows`: the empty query
      shows everything; any other query keeps the records that match it. */
  function FilterRows(allRows: seq<Record>, query: string): (r: seq<Record>)
    ensures query == "" ==> r == allRows
    ensures |r| <= |allRows|
    ensures query != "" ==> forall j :: 0 <= j < |r| ==> Matches(r[j], Lower(query))
  {
    if query == "" then allRows
    else
      var r := Filter(allRows, MatchesQuery(query));
      assert forall j :: 0 <= j < |r| ==> MatchesQuery(query)(r[j]);
      r
  }

  /** For a non-empty query the result is the matching records, in their
      original order, with none of them left out. */
  lemma FilterRowsSelects(allRows: seq<Record>, query: string) returns (idx: seq<nat>)
    requires query != ""
    ensures Selects(allRows, MatchesQuery(query), FilterRows(allRows, query), idx)
  {
    idx := FilterPositions(allRows, MatchesQuery(query));
  }

  /** A record is shown exactly when it is loaded and some field contains the
      query, ignoring case. */
  lemma FilterRowsMembership(allRows: seq<Record>, query: string, row: Record)
    requires query != ""
    ensures row in FilterRows(allRows, query) <==> row in allRows && Matches(row, Lower(query))
  {
    FilterMembership(allRows, MatchesQuery(query), row);
  }

  /** Case does not matter: a query and its lower-cased form select the same
      records. */
  lemma FilterIgnoresCase(allRows: seq<Record>, query: string)
    ensures FilterRows(allRows, Lower(query)) == FilterRows(allRows, query)
  {
    LowerIdempotent(query);
    if query != "" {
      assert MatchesQuery(Lower(query)) == MatchesQuery(query);
    }
  }

  lemma LowerIdempotent(s: string)
    ensures Lower(Lower(s)) == Lower(s)
  {
  }

  /** A record with a field "Tokyo" is found by "tokyo" and not by "osaka". */
  lemma TokyoExample(name: string)
    ensures FilterRows([[Entry(name, "Tokyo")]], "tokyo") == [[Entry(name, "Tokyo")]]
  {
    var row := [Entry(name, "Tokyo")];
    assert Lower("Tokyo") == "tokyo";
    assert Lower("tokyo") == "tokyo";
    assert OccursAt(Lower(row[0].value), "tokyo", 0);
    assert Matches(row, Lower("tokyo"));
  }

  /** ... and not by "osaka"; nor by a blank query, which is not treated as empty. */
  lemma OsakaExample(name: string)
    ensures FilterRows([[Entry(name, "Tokyo")]], "osaka") == []
    ensures FilterRows([[Entry(name, "Tokyo")]], " ") == []
  {
    var row := [Entry(name, "Tokyo")];
    assert Lower("Tokyo") == "tokyo";
    assert !Contains("tokyo", "osaka") by {
      forall i | 0 <= i <= 5
        ensures !OccursAt("tokyo", "osaka", i)
      {
        if i == 0 {
          assert "tokyo"[0..5][0] == 't';
        }
      }
    }
    assert !Contains("tokyo", " ") by {
      forall i | 0 <= i <= 5
        ensures !OccursAt("tokyo", " ", i)
      {
        if i < 5 {
          assert "tokyo"[i..i + 1][0] == "tokyo"[i] != ' ';
        }
      }
    }
    assert Lower("osaka") == "osaka" && Lower(" ") == " ";
    assert Lower(row[0].value) == "tokyo";
    assert !Matches(row, Lower("osaka"));
    assert !Matches(row, Lower(" "));
    FilterRowsMembership([row], "osaka", row);
    FilterRowsMembership([row], " ", row);
  }
}
