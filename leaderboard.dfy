/**
 * The leaderboard's score computation (components/Leaderboard.tsx): the
 * points of every result are added into one bucket per group, the three
 * buckets become group scores in GROUPS order, and those are sorted by total,
 * highest first. The sort is stable, so groups with equal totals stay in the
 * declared order Green, Red, Blue.
 */
module Leaderboard {
  import opened Types
  import opened Wrappers

  /** What one result adds to the bucket of `g`: its stored points, if it is labelled `g`. */
  function Contribution(r: Result, g: GroupColor): int {
    if r.group == GroupName(g) then r.points else 0
  }

  /** The sum of the stored points of the results labelled `g`. */
  function GroupTotal(results: seq<Result>, g: GroupColor): int {
    if results == [] then 0
    else GroupTotal(results[..|results| - 1], g) + Contribution(results[|results| - 1], g)
  }

  /** The sum of the stored points of all results, whatever their label. */
  function TotalPoints(results: seq<Result>): int {
    if results == [] then 0
    else TotalPoints(results[..|results| - 1]) + results[|results| - 1].points
  }

  /** The bucket map `scoresMap` once the given results have been added in. */
  function TotalsMap(results: seq<Result>): (m: map<string, int>)
    ensures m.Keys == {"Green", "Red", "Blue"}
    ensures forall g: GroupColor :: GroupName(g) in m && m[GroupName(g)] == GroupTotal(results, g)
  {
    map["Green" := GroupTotal(results, Green),
        "Red" := GroupTotal(results, Red),
        "Blue" := GroupTotal(results, Blue)]
  }

  // ---------------------------------------------------------------------
  // The stable sort by total, highest first
  // ---------------------------------------------------------------------

  /** Puts `x` in front of the first entry whose total is not above its own. */
  function InsertByPoints(x: GroupScore, s: seq<GroupScore>): (r: seq<GroupScore>)
    ensures multiset(r) == multiset(s) + multiset{x}
  {
    if s == [] || s[0].totalPoints <= x.totalPoints then [x] + s
    else
      assert s == [s[0]] + s[1..];
      [s[0]] + InsertByPoints(x, s[1..])
  }

  /**
   * `sort((a, b) => b.totalPoints - a.totalPoints)`; an earlier entry goes in
   * front of later ones with the same total, as a stable sort keeps it.
   */
  function SortByPointsDesc(s: seq<GroupScore>): (r: seq<GroupScore>)
    ensures multiset(r) == multiset(s)
  {
    if s == [] then []
    else
      assert s == [s[0]] + s[1..];
      InsertByPoints(s[0], SortByPointsDesc(s[1..]))
  }

  /** Groups in strictly increasing declared order. */
  ghost predicate InDeclaredOrder(s: seq<GroupScore>) {
    forall i, j :: 0 <= i < j < |s| ==> GroupIndex(s[i].group) < GroupIndex(s[j].group)
  }

  /** `a` belongs before `b`: a higher total, or the same total and an earlier group. */
  predicate Ahead(a: GroupScore, b: GroupScore) {
    a.totalPoints > b.totalPoints
    || (a.totalPoints == b.totalPoints && GroupIndex(a.group) < GroupIndex(b.group))
  }

  /** Sorted by total, highest first, with ties in declared group order. */
  ghost predicate Ranked(s: seq<GroupScore>) {
    forall i, j :: 0 <= i < j < |s| ==> Ahead(s[i], s[j])
  }

  lemma RankedTail(s: seq<GroupScore>)
    requires Ranked(s) && s != []
    ensures Ranked(s[1..])
    ensures forall y :: y in s[1..] ==> Ahead(s[0], y)
  {
    forall i, j | 0 <= i < j < |s[1..]| ensures Ahead(s[1..][i], s[1..][j]) {
      assert s[1..][i] == s[i + 1] && s[1..][j] == s[j + 1];
    }
    forall y | y in s[1..] ensures Ahead(s[0], y) {
      var k :| 0 <= k < |s[1..]| && s[1..][k] == y;
      assert s[k + 1] == y;
    }
  }

  lemma RankedCons(x: GroupScore, t: seq<GroupScore>)
    requires Ranked(t)
    requires forall y :: y in t ==> Ahead(x, y)
    ensures Ranked([x] + t)
  {
    var r := [x] + t;
    forall i, j | 0 <= i < j < |r| ensures Ahead(r[i], r[j]) {
      assert r[j] == t[j - 1] && r[j] in t;
      if i > 0 {
        assert r[i] == t[i - 1];
      }
    }
  }

  lemma {:induction false} InsertRanked(x: GroupScore, s: seq<GroupScore>)
    requires Ranked(s)
    requires forall y :: y in s ==> GroupIndex(x.group) < GroupIndex(y.group)
    ensures Ranked(InsertByPoints(x, s))
  {
    if s == [] || s[0].totalPoints <= x.totalPoints {
      forall y | y in s ensures Ahead(x, y) {
        if y != s[0] {
          RankedTail(s);
          assert y in s[1..];
        }
      }
      RankedCons(x, s);
    } else {
      RankedTail(s);
      var tail := InsertByPoints(x, s[1..]);
      InsertRanked(x, s[1..]);
      forall y | y in tail ensures Ahead(s[0], y) {
        assert y in multiset(tail);
        assert y == x || y in multiset(s[1..]);
      }
      RankedCons(s[0], tail);
    }
  }

  /** Sorting scores listed in declared order ranks them, ties in declared order. */
  lemma {:induction false} SortRanked(s: seq<GroupScore>)
    requires InDeclaredOrder(s)
    ensures Ranked(SortByPointsDesc(s))
  {
    if s != [] {
      SortRanked(s[1..]);
      var sorted := SortByPointsDesc(s[1..]);
      forall y | y in sorted ensures GroupIndex(s[0].group) < GroupIndex(y.group) {
        assert y in multiset(s[1..]);
        var k :| 0 <= k < |s[1..]| && s[1..][k] == y;
        assert s[k + 1] == y;
      }
      InsertRanked(s[0], sorted);
    }
  }

  function SumTotals(s: seq<GroupScore>): int {
    if s == [] then 0 else s[0].totalPoints + SumTotals(s[1..])
  }

  lemma {:induction false} InsertKeepsSum(x: GroupScore, s: seq<GroupScore>)
    ensures SumTotals(InsertByPoints(x, s)) == x.totalPoints + SumTotals(s)
  {
    if !(s == [] || s[0].totalPoints <= x.totalPoints) {
      InsertKeepsSum(x, s[1..]);
      assert InsertByPoints(x, s)[1..] == InsertByPoints(x, s[1..]);
    } else {
      assert InsertByPoints(x, s)[1..] == s;
    }
  }

  lemma {:induction false} SortKeepsSum(s: seq<GroupScore>)
    ensures SumTotals(SortByPointsDesc(s)) == SumTotals(s)
  {
    if s != [] {
      SortKeepsSum(s[1..]);
      InsertKeepsSum(s[0], SortByPointsDesc(s[1..]));
    }
  }

  // ---------------------------------------------------------------------
  // The scores computation
  // ---------------------------------------------------------------------

  /** `GROUPS.map(g => ({ group: g, totalPoints: scoresMap[g] })).sort(...)`. */
  function RankGroups(scoresMap: map<string, int>): seq<GroupScore>
    requires forall g: GroupColor :: GroupName(g) in scoresMap
  {
    SortByPointsDesc(seq(|GROUPS|, i requires 0 <= i < |GROUPS| =>
                           GroupScore(GROUPS[i], scoresMap[GroupName(GROUPS[i])])))
  }

  /** The leaderboard for a collection of results. */
  function Scores(results: seq<Result>): seq<GroupScore> {
    RankGroups(TotalsMap(results))
  }

  /** The `useMemo` body: the bucket loop, then the sorted group scores. */
  method ComputeScores(results: seq<Result>) returns (scores: seq<GroupScore>)
    ensures scores == Scores(results)
  {
    var scoresMap: map<string, int> := map["Green" := 0, "Red" := 0, "Blue" := 0];
    for i := 0 to |results|
      invariant scoresMap == TotalsMap(results[..i])
    {
      var r := results[i];
      assert results[..i + 1][..i] == results[..i];
      if r.group in scoresMap {
        scoresMap := scoresMap[r.group := scoresMap[r.group] + r.points];
      }
    }
    assert results[..|results|] == results;
    scores := RankGroups(scoresMap);
  }

  /** The unsorted rows, in GROUPS order, for given results. */
  lemma UnsortedRows(results: seq<Result>)
    ensures seq(|GROUPS|, i requires 0 <= i < |GROUPS| =>
                  GroupScore(GROUPS[i], TotalsMap(results)[GroupName(GROUPS[i])]))
         == [GroupScore(Green, GroupTotal(results, Green)),
             GroupScore(Red, GroupTotal(results, Red)),
             GroupScore(Blue, GroupTotal(results, Blue))]
  {
  }

  lemma PermutationMembers(a: seq<GroupScore>, b: seq<GroupScore>)
    requires multiset(a) == multiset(b)
    ensures |a| == |b|
    ensures forall x :: x in a <==> x in b
  {
    assert |a| == |multiset(a)| == |multiset(b)| == |b|;
    forall x ensures x in a <==> x in b {
      assert x in a <==> x in multiset(a);
      assert x in b <==> x in multiset(b);
    }
  }

  /** The scores, before sorting, as a literal list in GROUPS order. */
  function Rows(results: seq<Result>): seq<GroupScore> {
    [GroupScore(Green, GroupTotal(results, Green)),
     GroupScore(Red, GroupTotal(results, Red)),
     GroupScore(Blue, GroupTotal(results, Blue))]
  }

  lemma ScoresAreSortedRows(results: seq<Result>)
    ensures Scores(results) == SortByPointsDesc(Rows(results))
    ensures Ranked(Scores(results))
  {
    UnsortedRows(results);
    assert Scores(results) == SortByPointsDesc(Rows(results));
    RowsInDeclaredOrder(results);
    SortRanked(Rows(results));
  }

  lemma RowsInDeclaredOrder(results: seq<Result>)
    ensures InDeclaredOrder(Rows(results))
  {
  }

  /** What any ranked rearrangement of the rows of the given results satisfies. */
  lemma RankedRowsFacts(results: seq<Result>, out: seq<GroupScore>)
    requires multiset(out) == multiset(Rows(results)) && Ranked(out)
    ensures |out| == 3
    ensures forall g: GroupColor :: GroupScore(g, GroupTotal(results, g)) in out
    ensures forall i, j :: 0 <= i < j < 3 ==> out[i].group != out[j].group
    ensures forall i :: 0 <= i < 3 ==> out[i].totalPoints == GroupTotal(results, out[i].group)
    ensures forall i, j :: 0 <= i < j < 3 ==> out[i].totalPoints >= out[j].totalPoints
  {
    var rows := Rows(results);
    PermutationMembers(out, rows);
    forall i | 0 <= i < 3 ensures out[i].totalPoints == GroupTotal(results, out[i].group) {
      assert out[i] in rows;
    }
    forall g: GroupColor ensures GroupScore(g, GroupTotal(results, g)) in out {
      assert rows[GroupIndex(g)] == GroupScore(g, GroupTotal(results, g));
    }
  }

  /**
   * Three entries, one per group, each carrying the total of its group's
   * results, sorted highest first with ties in declared order.
   */
  lemma ScoresCharacterised(results: seq<Result>)
    ensures |Scores(results)| == 3
    ensures forall g: GroupColor :: GroupScore(g, GroupTotal(results, g)) in Scores(results)
    ensures forall i, j :: 0 <= i < j < 3 ==> Scores(results)[i].group != Scores(results)[j].group
    ensures forall i :: 0 <= i < 3 ==> Scores(results)[i].totalPoints == GroupTotal(results, Scores(results)[i].group)
    ensures Ranked(Scores(results))
    ensures forall i, j :: 0 <= i < j < 3 ==> Scores(results)[i].totalPoints >= Scores(results)[j].totalPoints
  {
    ScoresAreSortedRows(results);
    RankedRowsFacts(results, Scores(results));
  }

  /** No results: every group at zero, in declared order. */
  lemma ScoresOfNoResults()
    ensures Scores([]) == [GroupScore(Green, 0), GroupScore(Red, 0), GroupScore(Blue, 0)]
  {
    ScoresAreSortedRows([]);
    SortOfOrderedRows(0, 0, 0);
  }

  // ---------------------------------------------------------------------
  // Laws of the bucket sums
  // ---------------------------------------------------------------------

  lemma {:induction false} GroupTotalConcat(a: seq<Result>, b: seq<Result>, g: GroupColor)
    ensures GroupTotal(a + b, g) == GroupTotal(a, g) + GroupTotal(b, g)
    decreases |b|
  {
    if b == [] {
      assert a + b == a;
    } else {
      GroupTotalConcat(a, b[..|b| - 1], g);
      assert (a + b)[..|a + b| - 1] == a + b[..|b| - 1];
    }
  }

  lemma GroupTotalSplit(left: seq<Result>, x: Result, right: seq<Result>, g: GroupColor)
    ensures GroupTotal(left + [x] + right, g) == GroupTotal(left + right, g) + Contribution(x, g)
  {
    GroupTotalConcat(left + [x], right, g);
    GroupTotalConcat(left, right, g);
    assert (left + [x])[..|left + [x]| - 1] == left;
  }

  lemma RemoveAt(b: seq<Result>, k: nat)
    requires k < |b|
    ensures b == b[..k] + [b[k]] + b[k + 1..]
    ensures multiset(b[..k] + b[k + 1..]) == multiset(b) - multiset{b[k]}
  {
    assert b == b[..k] + [b[k]] + b[k + 1..];
    assert multiset(b) == multiset(b[..k]) + multiset{b[k]} + multiset(b[k + 1..]);
  }

  /** The order in which results arrive does not change any group's total. */
  lemma {:induction false} GroupTotalPermutation(a: seq<Result>, b: seq<Result>, g: GroupColor)
    requires multiset(a) == multiset(b)
    ensures GroupTotal(a, g) == GroupTotal(b, g)
    decreases |a|
  {
    if a == [] {
      assert |b| == |multiset(b)| == 0;
    } else {
      var x := a[|a| - 1];
      var front := a[..|a| - 1];
      assert a == front + [x];
      assert multiset(front) == multiset(a) - multiset{x};
      assert x in multiset(b);
      var k :| 0 <= k < |b| && b[k] == x;
      var left, right := b[..k], b[k + 1..];
      RemoveAt(b, k);
      assert b == left + [x] + right;
      GroupTotalPermutation(front, left + right, g);
      GroupTotalSplit(left, x, right, g);
      assert GroupTotal(a, g) == GroupTotal(front, g) + Contribution(x, g);
    }
  }

  /** The leaderboard does not depend on the order of the results. */
  lemma ScoresPermutationInvariant(a: seq<Result>, b: seq<Result>)
    requires multiset(a) == multiset(b)
    ensures Scores(a) == Scores(b)
  {
    GroupTotalPermutation(a, b, Green);
    GroupTotalPermutation(a, b, Red);
    GroupTotalPermutation(a, b, Blue);
    assert TotalsMap(a) == TotalsMap(b);
  }

  /** Results labelled Green, Red or Blue. */
  ghost predicate AllGroupsKnown(results: seq<Result>) {
    forall r :: r in results ==> ParseGroup(r.group).Some?
  }

  lemma {:induction false} BucketsCoverAllPoints(results: seq<Result>)
    requires AllGroupsKnown(results)
    ensures GroupTotal(results, Green) + GroupTotal(results, Red) + GroupTotal(results, Blue)
         == TotalPoints(results)
  {
    if results != [] {
      var front := results[..|results| - 1];
      assert forall r :: r in front ==> r in results;
      BucketsCoverAllPoints(front);
      assert ParseGroup(results[|results| - 1].group).Some?;
    }
  }

  /** When every result names a known group, the leaderboard distributes all points. */
  lemma ScoresSumToAllPoints(results: seq<Result>)
    requires AllGroupsKnown(results)
    ensures SumTotals(Scores(results)) == TotalPoints(results)
  {
    ScoresAreSortedRows(results);
    SortKeepsSum(Rows(results));
    SumOfRows(results);
    BucketsCoverAllPoints(results);
  }

  lemma SumOfRows(results: seq<Result>)
    ensures SumTotals(Rows(results))
         == GroupTotal(results, Green) + GroupTotal(results, Red) + GroupTotal(results, Blue)
  {
    var rows := Rows(results);
    assert rows[1..] == [rows[1], rows[2]];
    assert [rows[1], rows[2]][1..] == [rows[2]];
    assert [rows[2]][1..] == [];
    assert SumTotals([rows[2]]) == rows[2].totalPoints;
    assert SumTotals([rows[1], rows[2]]) == rows[1].totalPoints + rows[2].totalPoints;
  }

  /** A result whose group is not Green, Red or Blue adds nothing anywhere. */
  lemma UnknownGroupIgnored(before: seq<Result>, r: Result, after: seq<Result>)
    requires ParseGroup(r.group).None?
    ensures Scores(before + [r] + after) == Scores(before + after)
  {
    forall g: GroupColor ensures GroupTotal(before + [r] + after, g) == GroupTotal(before + after, g) {
      GroupTotalConcat(before + [r], after, g);
      GroupTotalConcat(before, after, g);
      assert (before + [r])[..|before + [r]| - 1] == before;
    }
    assert TotalsMap(before + [r] + after) == TotalsMap(before + after);
  }

  // ---------------------------------------------------------------------
  // Worked cases
  // ---------------------------------------------------------------------

  lemma GroupTotalOfThree(x: Result, y: Result, z: Result, g: GroupColor)
    ensures GroupTotal([x, y, z], g) == Contribution(x, g) + Contribution(y, g) + Contribution(z, g)
  {
    assert [x][..0] == [];
    assert GroupTotal([x], g) == Contribution(x, g);
    assert [x, y][..1] == [x];
    assert GroupTotal([x, y], g) == Contribution(x, g) + Contribution(y, g);
    assert [x, y, z][..2] == [x, y];
  }

  /** Rows whose totals strictly decrease, or tie in declared order, are already sorted. */
  lemma SortOfOrderedRows(g: int, r: int, b: int)
    requires g >= r >= b
    ensures SortByPointsDesc([GroupScore(Green, g), GroupScore(Red, r), GroupScore(Blue, b)])
         == [GroupScore(Green, g), GroupScore(Red, r), GroupScore(Blue, b)]
  {
    var gs, rs, bs := GroupScore(Green, g), GroupScore(Red, r), GroupScore(Blue, b);
    assert [gs, rs, bs][1..] == [rs, bs];
    assert [rs, bs][1..] == [bs];
    assert SortByPointsDesc([bs]) == [bs];
    assert SortByPointsDesc([rs, bs]) == InsertByPoints(rs, [bs]) == [rs, bs];
  }

  /** Green 5 + 1, Red 3, no Blue results: Green 6, Red 3, Blue 0. */
  lemma ScenarioMixedGroups()
    ensures var results := [Result("1", "Asha", "R1", "Green", "100m", "Athletics", "1st", 5, 3),
                            Result("2", "Ben", "R2", "Red", "100m", "Athletics", "2nd", 3, 2),
                            Result("3", "Cy", "R3", "Green", "100m", "Athletics", "3rd", 1, 1)];
            Scores(results) == [GroupScore(Green, 6), GroupScore(Red, 3), GroupScore(Blue, 0)]
  {
    var x := Result("1", "Asha", "R1", "Green", "100m", "Athletics", "1st", 5, 3);
    var y := Result("2", "Ben", "R2", "Red", "100m", "Athletics", "2nd", 3, 2);
    var z := Result("3", "Cy", "R3", "Green", "100m", "Athletics", "3rd", 1, 1);
    ScoresAreSortedRows([x, y, z]);
    GroupTotalOfThree(x, y, z, Green);
    GroupTotalOfThree(x, y, z, Red);
    GroupTotalOfThree(x, y, z, Blue);
    SortOfOrderedRows(6, 3, 0);
  }

  /** Green 10 and Red 10 tie above Blue 5: Green stays ahead of Red. */
  lemma ScenarioTieKeepsDeclaredOrder()
    ensures var results := [Result("1", "Asha", "R1", "Blue", "Chess", "Games", "1st", 5, 3),
                            Result("2", "Ben", "R2", "Red", "Chess", "Games", "1st", 10, 2),
                            Result("3", "Cy", "R3", "Green", "Relay", "Athletics", "1st", 10, 1)];
            Scores(results) == [GroupScore(Green, 10), GroupScore(Red, 10), GroupScore(Blue, 5)]
  {
    var x := Result("1", "Asha", "R1", "Blue", "Chess", "Games", "1st", 5, 3);
    var y := Result("2", "Ben", "R2", "Red", "Chess", "Games", "1st", 10, 2);
    var z := Result("3", "Cy", "R3", "Green", "Relay", "Athletics", "1st", 10, 1);
    ScoresAreSortedRows([x, y, z]);
    GroupTotalOfThree(x, y, z, Green);
    GroupTotalOfThree(x, y, z, Red);
    GroupTotalOfThree(x, y, z, Blue);
    SortOfOrderedRows(10, 10, 5);
  }

  /** The stored points count, not the position: a 1st place entered as 99 adds 99. */
  lemma ScenarioStoredPointsCount()
    ensures var results := [Result("1", "Asha", "R1", "Green", "Long jump", "Athletics", "1st", 99, 1)];
            Scores(results) == [GroupScore(Green, 99), GroupScore(Red, 0), GroupScore(Blue, 0)]
  {
    var x := Result("1", "Asha", "R1", "Green", "Long jump", "Athletics", "1st", 99, 1);
    ScoresAreSortedRows([x]);
    assert [x][..0] == [];
    SortOfOrderedRows(99, 0, 0);
  }

}
