/** The values the standings engine works on: match records, team standings
    and the 3/1/0 points rule. */
module Model {

  /** One fixture. The scores mean something only when `matchPlayed` holds.
      The display-only fields `matchDate` and `stadium` are not modelled. */
  datatype Match = Match(
    homeTeam: string,
    awayTeam: string,
    matchPlayed: bool,
    homeTeamScore: nat,
    awayTeamScore: nat)

  /** One row of the leaderboard. */
  datatype Standing = Standing(
    teamName: string,
    matchesPlayed: nat,
    goalsFor: nat,
    goalsAgainst: nat,
    points: nat)

  /** The four statistics a standing accumulates. */
  datatype Column = MatchesPlayed | GoalsFor | GoalsAgainst | Points

  function Get(s: Standing, c: Column): nat {
    match c
    case MatchesPlayed => s.matchesPlayed
    case GoalsFor => s.goalsFor
    case GoalsAgainst => s.goalsAgainst
    case Points => s.points
  }

  /** Two standings with the same name and the same four statistics are equal. */
  lemma StandingExt(s: Standing, t: Standing)
    requires s.teamName == t.teamName
    requires forall c :: Get(s, c) == Get(t, c)
    ensures s == t
  {
    assert Get(s, MatchesPlayed) == Get(t, MatchesPlayed);
    assert Get(s, GoalsFor) == Get(t, GoalsFor);
    assert Get(s, GoalsAgainst) == Get(t, GoalsAgainst);
    assert Get(s, Points) == Get(t, Points);
  }

  /** Points one side earns from a result: 3 for a win, 1 for a draw, 0 for a loss. */
  function ResultPoints(own: nat, opp: nat): (p: nat)
    ensures p == 3 <==> own > opp
    ensures p == 1 <==> own == opp
    ensures p == 0 <==> own < opp
  {
    if own > opp then 3 else if own == opp then 1 else 0
  }

  /** What one side of a played match adds to column `c` of its own standing. */
  function SideStat(own: nat, opp: nat, c: Column): nat {
    match c
    case MatchesPlayed => 1
    case GoalsFor => own
    case GoalsAgainst => opp
    case Points => ResultPoints(own, opp)
  }

  /** Column `c` summed over both sides of match `m`, or 0 when it was not played. */
  function Awarded(m: Match, c: Column): nat {
    if m.matchPlayed
    then SideStat(m.homeTeamScore, m.awayTeamScore, c) + SideStat(m.awayTeamScore, m.homeTeamScore, c)
    else 0
  }

  /** A decisive match hands out 3 points in all, a draw 2. */
  lemma AwardedPoints(m: Match)
    requires m.matchPlayed
    ensures Awarded(m, Points) == if m.homeTeamScore == m.awayTeamScore then 2 else 3
  {
  }

  /** Number of played matches. */
  function PlayedCount(ms: seq<Match>): (n: nat)
    ensures n <= |ms|
    decreases |ms|
  {
    if ms == [] then 0
    else PlayedCount(ms[..|ms| - 1]) + (if ms[|ms| - 1].matchPlayed then 1 else 0)
  }

  /** Number of played matches that ended in a draw. */
  function Draws(ms: seq<Match>): (n: nat)
    ensures n <= PlayedCount(ms)
    decreases |ms|
  {
    if ms == [] then 0
    else
      var m := ms[|ms| - 1];
      Draws(ms[..|ms| - 1]) + (if m.matchPlayed && m.homeTeamScore == m.awayTeamScore then 1 else 0)
  }

  /** Goals scored in all played matches, by either side. */
  function GoalsScored(ms: seq<Match>): nat
    decreases |ms|
  {
    if ms == [] then 0
    else
      var m := ms[|ms| - 1];
      GoalsScored(ms[..|ms| - 1]) + (if m.matchPlayed then m.homeTeamScore + m.awayTeamScore else 0)
  }

  /** Column `c` summed over every side of every played match. */
  function MatchTotal(ms: seq<Match>, c: Column): nat
    decreases |ms|
  {
    if ms == [] then 0 else MatchTotal(ms[..|ms| - 1], c) + Awarded(ms[|ms| - 1], c)
  }

  /** What the match list hands out in each column: two appearances per played
      match, every goal once as scored and once as conceded, and 3 points per
      decisive match, 2 per draw. */
  lemma {:induction false} MatchTotalByColumn(ms: seq<Match>)
    ensures MatchTotal(ms, MatchesPlayed) == 2 * PlayedCount(ms)
    ensures MatchTotal(ms, GoalsFor) == GoalsScored(ms)
    ensures MatchTotal(ms, GoalsAgainst) == GoalsScored(ms)
    ensures MatchTotal(ms, Points) == 3 * (PlayedCount(ms) - Draws(ms)) + 2 * Draws(ms)
    decreases |ms|
  {
    if ms != [] {
      MatchTotalByColumn(ms[..|ms| - 1]);
    }
  }
}
