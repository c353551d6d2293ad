/** The ranking comparator of `_generateRanking`: points, then head-to-head
    points, then goal difference, then goals scored, then team name. */
module Ranking {
  import opened Model
  import opened Table
  import opened HeadToHead

  /** Stand-in for `localeCompare`: plain lexicographic order on character
      codes, negative when `a` comes first, zero when equal, positive after. */
  function NameOrder(a: string, b: string): (r: int)
    ensures -1 <= r <= 1
    ensures r == 0 <==> a == b
    decreases |a|
  {
    if a == [] then (if b == [] then 0 else -1)
    else if b == [] then 1
    else if a[0] < b[0] then -1
    else if a[0] > b[0] then 1
    else
      assert a == [a[0]] + a[1..] && b == [b[0]] + b[1..];
      NameOrder(a[1..], b[1..])
  }

  lemma {:induction false} NameOrderAntisymmetric(a: string, b: string)
    ensures NameOrder(a, b) == -NameOrder(b, a)
    decreases |a|
  {
    if a != [] && b != [] && a[0] == b[0] {
      NameOrderAntisymmetric(a[1..], b[1..]);
    }
  }

  /** The name order is transitive, so together with the two lemmas above it
      is a strict total order on names. */
  lemma {:induction false} NameOrderTransitive(a: string, b: string, c: string)
    requires NameOrder(a, b) < 0 && NameOrder(b, c) < 0
    ensures NameOrder(a, c) < 0
    decreases |a|
  {
    if a != [] && b != [] && c != [] && a[0] == b[0] && b[0] == c[0] {
      NameOrderTransitive(a[1..], b[1..], c[1..]);
    }
  }

  function GoalDifference(s: Standing): int {
    s.goalsFor - s.goalsAgainst
  }

  /** The sort comparator: negative when `x` ranks above `y`, positive when
      below. It returns the first non-zero difference of the cascade, as the
      source does, and the name order as a last resort. */
  function Compare(ms: seq<Match>, x: Standing, y: Standing): (r: int)
    ensures r == 0 <==> x.teamName == y.teamName && x.points == y.points
                        && x.goalsFor == y.goalsFor && x.goalsAgainst == y.goalsAgainst
  {
    var pointsDiff := y.points - x.points;
    if pointsDiff != 0 then pointsDiff
    else
      var headToHeadDiff := HeadToHeadPoints(ms, y.teamName, x.teamName) - HeadToHeadPoints(ms, x.teamName, y.teamName);
      if headToHeadDiff != 0 then headToHeadDiff
      else
        var goalsDiff := GoalDifference(y) - GoalDifference(x);
        if goalsDiff != 0 then goalsDiff
        else
          var goalsForDiff := y.goalsFor - x.goalsFor;
          if goalsForDiff != 0 then goalsForDiff
          else NameOrder(x.teamName, y.teamName)
  }

  /** The tie-break cascade as a lexicographic "ranks strictly above". */
  predicate Above(ms: seq<Match>, x: Standing, y: Standing) {
    var hx, hy := HeadToHeadPoints(ms, x.teamName, y.teamName), HeadToHeadPoints(ms, y.teamName, x.teamName);
    || x.points > y.points
    || (x.points == y.points && hx > hy)
    || (x.points == y.points && hx == hy && GoalDifference(x) > GoalDifference(y))
    || (x.points == y.points && hx == hy && GoalDifference(x) == GoalDifference(y) && x.goalsFor > y.goalsFor)
    || (x.points == y.points && hx == hy && GoalDifference(x) == GoalDifference(y) && x.goalsFor == y.goalsFor
        && NameOrder(x.teamName, y.teamName) < 0)
  }

  /** The comparator is antisymmetric, and it puts `x` first exactly when the
      cascade ranks `x` above `y`. */
  lemma CompareIsCascade(ms: seq<Match>, x: Standing, y: Standing)
    ensures Compare(ms, x, y) == -Compare(ms, y, x)
    ensures Compare(ms, x, y) < 0 <==> Above(ms, x, y)
    ensures Compare(ms, x, y) > 0 <==> Above(ms, y, x)
  {
    NameOrderAntisymmetric(x.teamName, y.teamName);
  }

  /** Adjacent entries are in comparator order, which is all a sort with this
      comparator can promise. */
  predicate Ranked(ms: seq<Match>, r: seq<Standing>) {
    forall i :: 0 <= i && i + 1 < |r| ==> Compare(ms, r[i], r[i + 1]) <= 0
  }

  /** The adjacent pairs of `s` that lie inside `[lo, hi)` are in comparator order. */
  predicate RankedBetween(ms: seq<Match>, s: seq<Standing>, lo: int, hi: int) {
    forall k :: lo <= k && k + 1 < hi && 0 <= k && k + 1 < |s| ==> Compare(ms, s[k], s[k + 1]) <= 0
  }

  /** The state of an insertion pass that is moving the entry at `j` down into
      the ranked prefix `[0, i)`: both sides of `j` are ranked, and the
      neighbours of `j` are in order with each other. */
  predicate Inserting(ms: seq<Match>, s: seq<Standing>, i: int, j: int) {
    && 0 <= j <= i < |s|
    && RankedBetween(ms, s, 0, j)
    && RankedBetween(ms, s, j, i + 1)
    && (0 < j < i ==> Compare(ms, s[j - 1], s[j + 1]) <= 0)
  }

  /** Swapping the moving entry with a predecessor that should come after it
      keeps the insertion pass in shape, one place further down. */
  lemma InsertSwap(ms: seq<Match>, s: seq<Standing>, i: int, j: int)
    requires Inserting(ms, s, i, j) && 0 < j && Compare(ms, s[j - 1], s[j]) > 0
    ensures Inserting(ms, s[j - 1 := s[j]][j := s[j - 1]], i, j - 1)
  {
    var t := s[j - 1 := s[j]][j := s[j - 1]];
    CompareIsCascade(ms, s[j - 1], s[j]);
    assert Compare(ms, t[j - 1], t[j]) <= 0;
    forall k | j - 1 <= k && k + 1 < i + 1 && 0 <= k && k + 1 < |t|
      ensures Compare(ms, t[k], t[k + 1]) <= 0
    {
      if k == j {
        assert t[k] == s[j - 1] && t[k + 1] == s[j + 1];
      } else if k > j {
        assert t[k] == s[k] && t[k + 1] == s[k + 1];
      }
    }
    if 0 < j - 1 {
      assert t[j - 2] == s[j - 2] && t[j] == s[j - 1];
    }
  }

  lemma SwapPermutes(s: seq<Standing>, j: int)
    requires 0 < j < |s|
    ensures multiset(s[j - 1 := s[j]][j := s[j - 1]]) == multiset(s)
  {
    var u := s[j - 1 := s[j]];
    assert multiset(u) == multiset(s) - multiset{s[j - 1]} + multiset{s[j]};
    assert multiset(u[j := s[j - 1]]) == multiset(u) - multiset{s[j]} + multiset{s[j - 1]};
  }

  /** An insertion pass that has stopped, at the bottom or below an entry that
      may precede the moving one, leaves `[0, i]` ranked. */
  lemma InsertDone(ms: seq<Match>, s: seq<Standing>, i: int, j: int)
    requires Inserting(ms, s, i, j)
    requires j == 0 || Compare(ms, s[j - 1], s[j]) <= 0
    ensures RankedBetween(ms, s, 0, i + 1)
  {
  }

  /** A ranked list of entries with distinct names is strictly ranked. */
  lemma RankedStrict(ms: seq<Match>, r: seq<Standing>)
    requires Ranked(ms, r)
    requires forall i, j :: 0 <= i < j < |r| ==> r[i].teamName != r[j].teamName
    ensures forall i :: 0 <= i && i + 1 < |r| ==> Compare(ms, r[i], r[i + 1]) < 0
  {
    forall i | 0 <= i && i + 1 < |r|
      ensures Compare(ms, r[i], r[i + 1]) < 0
    {
      assert r[i].teamName != r[i + 1].teamName;
    }
  }

  /** Three teams that beat each other in a circle, each 1-0, all on equal points. */
  function CircleMatches(): seq<Match> {
    [Match("A", "B", true, 1, 0), Match("B", "C", true, 1, 0), Match("C", "A", true, 1, 0)]
  }

  /** The comparator is not transitive: in the circle above each team ranks
      above the next on head-to-head points, so no order of the three puts
      every pair the way the comparator wants. */
  lemma CompareNotTransitive()
    ensures var ms := CircleMatches();
            var a, b, c := Row(ms, "A"), Row(ms, "B"), Row(ms, "C");
            a == Standing("A", 2, 1, 1, 3) && b == Standing("B", 2, 1, 1, 3) && c == Standing("C", 2, 1, 1, 3)
            && Compare(ms, a, b) < 0 && Compare(ms, b, c) < 0 && Compare(ms, c, a) < 0
  {
    var ms := CircleMatches();
    forall t, c
      ensures Tally(ms, t, c) == Contribution(ms[0], t, c) + Contribution(ms[1], t, c) + Contribution(ms[2], t, c)
    {
      ThreeMatches(ms, t, t, c);
    }
    forall a, b
      ensures HeadToHeadPoints(ms, a, b) == MeetingPoints(ms[0], a, b) + MeetingPoints(ms[1], a, b) + MeetingPoints(ms[2], a, b)
    {
      ThreeMatches(ms, a, b, Points);
    }
    var a, b, c := Row(ms, "A"), Row(ms, "B"), Row(ms, "C");
    StandingExt(a, Standing("A", 2, 1, 1, 3));
    StandingExt(b, Standing("B", 2, 1, 1, 3));
    StandingExt(c, Standing("C", 2, 1, 1, 3));
  }

  /** Sums over a three-match list, spelt out. */
  lemma ThreeMatches(ms: seq<Match>, a: string, b: string, c: Column)
    requires |ms| == 3
    ensures Tally(ms, a, c) == Contribution(ms[0], a, c) + Contribution(ms[1], a, c) + Contribution(ms[2], a, c)
    ensures HeadToHeadPoints(ms, a, b) == MeetingPoints(ms[0], a, b) + MeetingPoints(ms[1], a, b) + MeetingPoints(ms[2], a, b)
  {
    var s2 := ms[..2];
    var s1 := s2[..1];
    assert s1[..0] == [];
    assert s1[0] == ms[0] && s2[1] == ms[1];
    assert Tally(s1, a, c) == Contribution(ms[0], a, c);
    assert Tally(s2, a, c) == Tally(s1, a, c) + Contribution(ms[1], a, c);
    assert HeadToHeadPoints(s1, a, b) == MeetingPoints(ms[0], a, b);
    assert HeadToHeadPoints(s2, a, b) == HeadToHeadPoints(s1, a, b) + MeetingPoints(ms[1], a, b);
  }
}
