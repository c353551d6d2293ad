/** The league service: a match store and the leaderboard computed from it. */
module Service {
  import opened Model
  import opened TeamDiscovery
  import opened Table
  import opened HeadToHead
  import opened Ranking

  class LeagueService {
    /** The held match list, replaced wholesale by `SetMatches`. */
    var matches: seq<Match>

    constructor()
      ensures matches == []
    {
      matches := [];
    }

    /** Overwrites the held list: no merging, filtering or copying. */
    method SetMatches(ms: seq<Match>)
      modifies this
      ensures matches == ms
    {
      matches := ms;
    }

    /** The held list, unchanged and in the order it was set. */
    method GetMatches() returns (ms: seq<Match>)
      ensures ms == matches
    {
      ms := matches;
    }

    /** The walk of `_getTeams`: each match adds its home, then its away team,
        unless already listed. */
    method GetTeams() returns (teams: seq<string>)
      ensures teams == Teams(matches)
      ensures NoDup(teams)
      ensures forall t :: t in teams <==> Occurs(matches, t)
    {
      teams := [];
      for i := 0 to |matches|
        invariant teams == Teams(matches[..i])
      {
        TeamsStep(matches, i);
        var m := matches[i];
        if m.homeTeam !in teams {
          teams := teams + [m.homeTeam];
        }
        if m.awayTeam !in teams {
          teams := teams + [m.awayTeam];
        }
      }
      assert matches[..|matches|] == matches;
    }

    /** `_updateLeaderboard`: one more match for `team`, the goals either way,
        and 3 points for a win, 1 for a draw; every other entry is left alone. */
    method UpdateLeaderboard(leaderboard: Board, team: string, goalsFor: nat, goalsAgainst: nat)
      returns (updated: Board)
      requires team in leaderboard
      ensures updated == leaderboard[team := Credit(leaderboard[team], goalsFor, goalsAgainst)]
    {
      var teamStats := leaderboard[team];
      teamStats := teamStats.(matchesPlayed := teamStats.matchesPlayed + 1);
      teamStats := teamStats.(goalsFor := teamStats.goalsFor + goalsFor);
      teamStats := teamStats.(goalsAgainst := teamStats.goalsAgainst + goalsAgainst);
      if goalsFor > goalsAgainst {
        teamStats := teamStats.(points := teamStats.points + 3);
      } else if goalsFor == goalsAgainst {
        teamStats := teamStats.(points := teamStats.points + 1);
      }
      updated := leaderboard[team := teamStats];
    }

    /** `_getHeadToHeadPoints`: the points `teamA` took from its played
        matches against `teamB`, home or away. */
    method GetHeadToHeadPoints(teamA: Standing, teamB: Standing) returns (points: nat)
      ensures points == HeadToHeadPoints(matches, teamA.teamName, teamB.teamName)
    {
      points := 0;
      for i := 0 to |matches|
        invariant points == HeadToHeadPoints(matches[..i], teamA.teamName, teamB.teamName)
      {
        assert matches[..i + 1][..i] == matches[..i];
        var m := matches[i];
        if m.matchPlayed {
          if m.homeTeam == teamA.teamName && m.awayTeam == teamB.teamName {
            if m.homeTeamScore > m.awayTeamScore {
              points := points + 3;
            } else if m.homeTeamScore == m.awayTeamScore {
              points := points + 1;
            }
          }
          if m.awayTeam == teamA.teamName && m.homeTeam == teamB.teamName {
            if m.awayTeamScore > m.homeTeamScore {
              points := points + 3;
            } else if m.awayTeamScore == m.homeTeamScore {
              points := points + 1;
            }
          }
        }
      }
      assert matches[..|matches|] == matches;
    }

    /** The sort callback of `_generateRanking`, recomputing head-to-head
        points from the match list on every call. */
    method CompareStandings(a: Standing, b: Standing) returns (r: int)
      ensures r == Compare(matches, a, b)
    {
      var pointsDiff: int := b.points - a.points;
      if pointsDiff != 0 {
        return pointsDiff;
      }
      var pointsB := GetHeadToHeadPoints(b, a);
      var pointsA := GetHeadToHeadPoints(a, b);
      var headToHeadPointsDiff := pointsB as int - pointsA as int;
      if headToHeadPointsDiff != 0 {
        return headToHeadPointsDiff;
      }
      var goalsDiff: int := (b.goalsFor - b.goalsAgainst) - (a.goalsFor - a.goalsAgainst);
      if goalsDiff != 0 {
        return goalsDiff;
      }
      var goalsForDiff: int := b.goalsFor - a.goalsFor;
      if goalsForDiff != 0 {
        return goalsForDiff;
      }
      r := NameOrder(a.teamName, b.teamName);
    }

    /** `_generateRanking`: puts the standings in an array, sorts it with the
        comparator and returns it. */
    method GenerateRanking(leaderboard: seq<Standing>) returns (ranking: seq<Standing>)
      ensures multiset(ranking) == multiset(leaderboard)
      ensures Ranked(matches, ranking)
    {
      var entries := new Standing[|leaderboard|](j requires 0 <= j < |leaderboard| => leaderboard[j]);
      assert entries[..] == leaderboard;
      Sort(entries);
      ranking := entries[..];
    }

    /** `leaderboard.sort(...)`: sorts the array in place with the comparator.
        Insertion sort; it relies only on the comparator being antisymmetric,
        not transitive. */
    method Sort(a: array<Standing>)
      modifies a
      ensures multiset(a[..]) == old(multiset(a[..]))
      ensures Ranked(matches, a[..])
    {
      var i := 0;
      while i < a.Length
        invariant 0 <= i <= a.Length
        invariant multiset(a[..]) == old(multiset(a[..]))
        invariant RankedBetween(matches, a[..], 0, i)
      {
        Insert(a, i);
        i := i + 1;
      }
    }

    /** One insertion pass: moves `a[i]` down past every entry of the ranked
        prefix `a[..i]` that the comparator puts after it. */
    method Insert(a: array<Standing>, i: nat)
      requires i < a.Length && RankedBetween(matches, a[..], 0, i)
      modifies a
      ensures multiset(a[..]) == old(multiset(a[..]))
      ensures RankedBetween(matches, a[..], 0, i + 1)
    {
      ghost var ms, orig := matches, a[..];
      var j := i;
      var settled := false;
      while j > 0 && !settled
        invariant multiset(a[..]) == multiset(orig)
        invariant Inserting(ms, a[..], i, j)
        invariant settled ==> 0 < j && Compare(ms, a[j - 1], a[j]) <= 0
        decreases j, if settled then 0 else 1
      {
        var c := CompareStandings(a[j - 1], a[j]);
        if c > 0 {
          ghost var s := a[..];
          InsertSwap(ms, s, i, j);
          SwapPermutes(s, j);
          a[j - 1], a[j] := a[j], a[j - 1];
          assert a[..] == s[j - 1 := s[j]][j := s[j - 1]];
          j := j - 1;
        } else {
          settled := true;
        }
      }
      InsertDone(ms, a[..], i, j);
    }

    /** The `teams.reduce` of `getLeaderboard`: a dictionary from each team
        name to a standing with every statistic at zero. */
    method ZeroedLeaderboard(teams: seq<string>) returns (leaderboard: Board)
      ensures leaderboard == ZeroBoard(teams)
    {
      leaderboard := map[];
      for k := 0 to |teams|
        invariant leaderboard == ZeroBoard(teams[..k])
      {
        ZeroBoardStep(teams, k);
        leaderboard := leaderboard[teams[k] := Zero(teams[k])];
      }
      assert teams[..|teams|] == teams;
    }

    /** The `matches.forEach` of `getLeaderboard`: both sides of every played
        match credited to their entries, in list order. */
    method CreditMatches(start: Board) returns (leaderboard: Board)
      requires Covers(start, matches)
      ensures leaderboard == Accumulate(start, matches)
    {
      leaderboard := start;
      for i := 0 to |matches|
        invariant Covers(start, matches[..i])
        invariant leaderboard == Accumulate(start, matches[..i])
      {
        AccumulateStep(start, matches, i);
        var m := matches[i];
        if m.matchPlayed {
          leaderboard := UpdateLeaderboard(leaderboard, m.homeTeam, m.homeTeamScore, m.awayTeamScore);
          leaderboard := UpdateLeaderboard(leaderboard, m.awayTeam, m.awayTeamScore, m.homeTeamScore);
        }
      }
      assert matches[..|matches|] == matches;
    }

    /** `getLeaderboard`: discover the teams, start each at zero, credit both
        sides of every played match, and rank the entries. */
    method GetLeaderboard() returns (ranking: seq<Standing>)
      ensures multiset(ranking) == multiset(Leaderboard(matches))
      ensures Ranked(matches, ranking)
    {
      var teams := GetTeams();
      var leaderboard := ZeroedLeaderboard(teams);
      TeamsCover(matches);
      leaderboard := CreditMatches(leaderboard);
      var values := Values(leaderboard, teams);
      ranking := GenerateRanking(values);
    }
  }
}
