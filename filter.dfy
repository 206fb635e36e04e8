/** The personnel records and the dashboard's search/level filter
    (`filteredData` in AdminDashboard.js). */
module Records {
  import opened Text

  /** One personnel record of the embedded dataset; the fields are the JSON
      keys `first_name`, `phone_number`, `email`, `level` and `profession`. */
  datatype Record = Record(
    firstName: string,
    phoneNumber: string,
    email: string,
    level: string,
    profession: string)

  /** The level selector's "All" value; the other values it offers are
      "internship", "entry-level", "mid-level" and "senior-level". */
  const AllLevels: string := ""

  /** The filter's test for one record: the lower-cased name contains the
      lower-cased search text, and the selector is "All" or equals the
      record's level. */
  predicate Matches(r: Record, searchText: string, filterLevel: string)
  {
    Includes(ToLowerCase(r.firstName), ToLowerCase(searchText)) &&
    (filterLevel == AllLevels || r.level == filterLevel)
  }

  /** `data.filter(row => Matches(row, searchText, filterLevel))`. */
  function Filter(data: seq<Record>, searchText: string, filterLevel: string): (r: seq<Record>)
    ensures |r| <= |data|
    ensures forall x :: x in r ==> x in data && Matches(x, searchText, filterLevel)
  {
    if data == [] then []
    else
      var rest := Filter(data[1..], searchText, filterLevel);
      if Matches(data[0], searchText, filterLevel) then [data[0]] + rest else rest
  }

  /** Soundness and completeness: a record is kept exactly when it is in the
      data and matches the criteria. */
  lemma {:induction false} FilterMembership(data: seq<Record>, searchText: string, filterLevel: string)
    ensures forall x :: x in Filter(data, searchText, filterLevel) <==> x in data && Matches(x, searchText, filterLevel)
  {
    if data != [] {
      FilterMembership(data[1..], searchText, filterLevel);
      assert forall x :: x in data <==> x == data[0] || x in data[1..];
    }
  }

  /** No record is duplicated or lost: each matching record occurs as often
      in the result as in the data, and a non-matching one not at all. */
  lemma {:induction false} FilterCount(data: seq<Record>, searchText: string, filterLevel: string, x: Record)
    ensures multiset(Filter(data, searchText, filterLevel))[x] ==
      if Matches(x, searchText, filterLevel) then multiset(data)[x] else 0
  {
    if data != [] {
      FilterCount(data[1..], searchText, filterLevel, x);
      assert data == [data[0]] + data[1..];
      assert multiset(data) == multiset([data[0]]) + multiset(data[1..]);
    }
  }

  /** The positions of `data[start..]`, in increasing order, whose records
      match the criteria. */
  function MatchingIndices(data: seq<Record>, searchText: string, filterLevel: string, start: nat): (idx: seq<nat>)
    requires start <= |data|
    decreases |data| - start
  {
    if start == |data| then []
    else
      var rest := MatchingIndices(data, searchText, filterLevel, start + 1);
      if Matches(data[start], searchText, filterLevel) then [start] + rest else rest
  }

  /** Every entry of `idx` lies in `[lo, hi)` and the entries strictly
      increase. */
  ghost predicate IncreasingWithin(idx: seq<nat>, lo: int, hi: int)
  {
    (forall k :: 0 <= k < |idx| ==> lo <= idx[k] < hi) &&
    (forall k, m :: 0 <= k < m < |idx| ==> idx[k] < idx[m])
  }

  /** `r` is `data` read at the positions `idx`, one element per position. */
  ghost predicate ReadAt(r: seq<Record>, data: seq<Record>, idx: seq<nat>)
  {
    |r| == |idx| && forall k :: 0 <= k < |idx| ==> idx[k] < |data| && r[k] == data[idx[k]]
  }

  /** The matching positions of `data[start..]` lie in that suffix and are
      listed in increasing order. */
  lemma {:induction false} MatchingIndicesIncreasing(data: seq<Record>, searchText: string, filterLevel: string, start: nat)
    requires start <= |data|
    decreases |data| - start
    ensures IncreasingWithin(MatchingIndices(data, searchText, filterLevel, start), start, |data|)
  {
    if start < |data| {
      MatchingIndicesIncreasing(data, searchText, filterLevel, start + 1);
      var rest := MatchingIndices(data, searchText, filterLevel, start + 1);
      if Matches(data[start], searchText, filterLevel) {
        var idx := [start] + rest;
        forall k, m | 0 <= k < m < |idx| ensures idx[k] < idx[m] {
          assert idx[m] == rest[m - 1];
          if k > 0 { assert idx[k] == rest[k - 1]; }
        }
      }
    }
  }

  /** A position of `data[start..]` is listed exactly when its record
      matches. */
  lemma {:induction false} MatchingIndicesExact(data: seq<Record>, searchText: string, filterLevel: string, start: nat, j: int)
    requires start <= j < |data|
    decreases |data| - start
    ensures j in MatchingIndices(data, searchText, filterLevel, start) <==> Matches(data[j], searchText, filterLevel)
  {
    MatchingIndicesIncreasing(data, searchText, filterLevel, start + 1);
    var rest := MatchingIndices(data, searchText, filterLevel, start + 1);
    if j == start {
      assert start !in rest;
    } else {
      MatchingIndicesExact(data, searchText, filterLevel, start + 1, j);
    }
  }

  /** The filter of `data[start..]` is `data` read at the matching positions
      of that suffix. */
  lemma {:induction false} FilterReadsMatchingIndices(data: seq<Record>, searchText: string, filterLevel: string, start: nat)
    requires start <= |data|
    decreases |data| - start
    ensures ReadAt(Filter(data[start..], searchText, filterLevel), data, MatchingIndices(data, searchText, filterLevel, start))
  {
    if start < |data| {
      FilterReadsMatchingIndices(data, searchText, filterLevel, start + 1);
      var rest := MatchingIndices(data, searchText, filterLevel, start + 1);
      var r' := Filter(data[start + 1..], searchText, filterLevel);
      assert data[start..][1..] == data[start + 1..];
      assert data[start..][0] == data[start];
      if Matches(data[start], searchText, filterLevel) {
        var idx := [start] + rest;
        var r := [data[start]] + r';
        forall k | 0 <= k < |idx| ensures idx[k] < |data| && r[k] == data[idx[k]] {
          if k > 0 { assert idx[k] == rest[k - 1] && r[k] == r'[k - 1]; }
        }
      }
    }
  }

  /** The filter is stable: its result is the data read at an increasing
      sequence of positions, and those are exactly the positions whose
      records match. Hence it is an order-preserving subsequence of the data
      that leaves out no matching record. */
  lemma FilterIsOrderedSubsequence(data: seq<Record>, searchText: string, filterLevel: string)
    ensures IncreasingWithin(MatchingIndices(data, searchText, filterLevel, 0), 0, |data|)
    ensures ReadAt(Filter(data, searchText, filterLevel), data, MatchingIndices(data, searchText, filterLevel, 0))
    ensures forall j :: 0 <= j < |data| ==>
      (j in MatchingIndices(data, searchText, filterLevel, 0) <==> Matches(data[j], searchText, filterLevel))
  {
    MatchingIndicesIncreasing(data, searchText, filterLevel, 0);
    FilterReadsMatchingIndices(data, searchText, filterLevel, 0);
    assert data[0..] == data;
    forall j | 0 <= j < |data|
      ensures j in MatchingIndices(data, searchText, filterLevel, 0) <==> Matches(data[j], searchText, filterLevel)
    {
      MatchingIndicesExact(data, searchText, filterLevel, 0, j);
    }
  }

  /** With the initial criteria (empty search, level "All") every record is
      kept: the empty string occurs in every name. */
  lemma {:induction false} FilterInitialIsIdentity(data: seq<Record>)
    ensures Filter(data, "", AllLevels) == data
  {
    if data != [] {
      FilterInitialIsIdentity(data[1..]);
      assert Matches(data[0], "", AllLevels);
      assert data == [data[0]] + data[1..];
    }
  }

  /** Filtering the filtered data again with the same criteria changes
      nothing. */
  lemma {:induction false} FilterIdempotent(data: seq<Record>, searchText: string, filterLevel: string)
    ensures var once := Filter(data, searchText, filterLevel);
      Filter(once, searchText, filterLevel) == once
  {
    if data != [] {
      FilterIdempotent(data[1..], searchText, filterLevel);
      var rest := Filter(data[1..], searchText, filterLevel);
      if Matches(data[0], searchText, filterLevel) {
        assert ([data[0]] + rest)[1..] == rest;
      }
    }
  }

  /** The search is case-insensitive in the search text: it may be replaced
      by its lower-cased form without changing the result. */
  lemma {:induction false} FilterIgnoresSearchCase(data: seq<Record>, searchText: string, filterLevel: string)
    ensures Filter(data, ToLowerCase(searchText), filterLevel) == Filter(data, searchText, filterLevel)
  {
    ToLowerCaseIdempotent(searchText);
    if data != [] {
      FilterIgnoresSearchCase(data[1..], searchText, filterLevel);
    }
  }

  /** A level that no record has yields an empty result, whatever the search. */
  lemma {:induction false} FilterAbsentLevel(data: seq<Record>, searchText: string, filterLevel: string)
    requires filterLevel != AllLevels
    requires forall x :: x in data ==> x.level != filterLevel
    ensures Filter(data, searchText, filterLevel) == []
  {
    if data != [] {
      FilterAbsentLevel(data[1..], searchText, filterLevel);
    }
  }

  /** Two records, search "an": only "Ana" is kept, since "an" occurs in
      "ana", the lower-cased "Ana", but not in "ben". */
  lemma SearchScenario(phone: string, email: string, profession: string)
    ensures var ana := Record("Ana", phone, email, "mid-level", profession);
      var ben := Record("Ben", phone, email, "senior-level", profession);
      Filter([ana, ben], "an", AllLevels) == [ana]
  {
    var ana := Record("Ana", phone, email, "mid-level", profession);
    var ben := Record("Ben", phone, email, "senior-level", profession);
    assert ToLowerCase("Ana") == "ana";
    assert ToLowerCase("an") == "an";
    assert ToLowerCase("Ben") == "ben";
    assert Matches(ana, "an", AllLevels);
    IncludesIff("ben", "an");
    assert !Matches(ben, "an", AllLevels);
    assert [ana, ben][1..] == [ben];
  }
}
