/** Statistics accumulation: the dictionary of zeroed standings keyed by team
    name, updated by every played match, and an independent per-team
    definition of what each entry ends up holding. */
module Table {
  import opened Model
  import opened TeamDiscovery

  /** The leaderboard dictionary, keyed by team name. */
  type Board = map<string, Standing>

  function Zero(t: string): Standing {
    Standing(t, 0, 0, 0, 0)
  }

  /** The dictionary `getLeaderboard` builds from the team list before any match is read. */
  function ZeroBoard(ts: seq<string>): (b: Board)
    ensures b.Keys == set t | t in ts
    ensures forall t :: t in b ==> b[t] == Zero(t)
    decreases |ts|
  {
    if ts == [] then map[] else ZeroBoard(ts[..|ts| - 1])[ts[|ts| - 1] := Zero(ts[|ts| - 1])]
  }

  /** One step of the `reduce`: the next team gets its zero entry. */
  lemma ZeroBoardStep(ts: seq<string>, k: nat)
    requires k < |ts|
    ensures ZeroBoard(ts[..k + 1]) == ZeroBoard(ts[..k])[ts[k] := Zero(ts[k])]
  {
    assert ts[..k + 1][..k] == ts[..k];
  }

  /** `_updateLeaderboard` on one entry: one more match, the goals either way, and 3/1/0 points. */
  function Credit(s: Standing, own: nat, opp: nat): (r: Standing)
    ensures r.teamName == s.teamName
    ensures forall c :: Get(r, c) == Get(s, c) + SideStat(own, opp, c)
  {
    Standing(s.teamName, s.matchesPlayed + 1, s.goalsFor + own, s.goalsAgainst + opp,
             s.points + ResultPoints(own, opp))
  }

  /** Both sides of match `m` credited, home first, when it was played; otherwise nothing changes. */
  function ApplyMatch(b: Board, m: Match): (r: Board)
    requires m.homeTeam in b && m.awayTeam in b
    ensures r.Keys == b.Keys
  {
    if m.matchPlayed then
      var b1 := b[m.homeTeam := Credit(b[m.homeTeam], m.homeTeamScore, m.awayTeamScore)];
      b1[m.awayTeam := Credit(b1[m.awayTeam], m.awayTeamScore, m.homeTeamScore)]
    else b
  }

  /** Every team of `ms` has an entry in `b`. */
  predicate Covers(b: Board, ms: seq<Match>) {
    forall i :: 0 <= i < |ms| ==> ms[i].homeTeam in b && ms[i].awayTeam in b
  }

  /** The `forEach` over the matches: `ApplyMatch` for each, in list order. */
  function Accumulate(b: Board, ms: seq<Match>): (r: Board)
    requires Covers(b, ms)
    ensures r.Keys == b.Keys
    decreases |ms|
  {
    if ms == [] then b else ApplyMatch(Accumulate(b, ms[..|ms| - 1]), ms[|ms| - 1])
  }

  /** One more match of the `forEach`. */
  lemma AccumulateStep(b: Board, ms: seq<Match>, i: nat)
    requires Covers(b, ms) && i < |ms|
    ensures Covers(b, ms[..i]) && Covers(b, ms[..i + 1])
    ensures Accumulate(b, ms[..i + 1]) == ApplyMatch(Accumulate(b, ms[..i]), ms[i])
  {
    assert ms[..i + 1][..i] == ms[..i];
  }

  /** `Object.values(leaderboard)`: the entries in the order their keys were inserted. */
  function Values(b: Board, ts: seq<string>): (r: seq<Standing>)
    requires forall i :: 0 <= i < |ts| ==> ts[i] in b
    ensures |r| == |ts|
    ensures forall i :: 0 <= i < |ts| ==> r[i] == b[ts[i]]
  {
    seq(|ts|, i requires 0 <= i < |ts| => b[ts[i]])
  }

  lemma TeamsCover(ms: seq<Match>)
    ensures Covers(ZeroBoard(Teams(ms)), ms)
  {
    forall i | 0 <= i < |ms|
      ensures Occurs(ms, ms[i].homeTeam) && Occurs(ms, ms[i].awayTeam)
    {
    }
  }

  /** The accumulated standings, one per discovered team, before ranking. */
  function Leaderboard(ms: seq<Match>): (r: seq<Standing>)
    ensures |r| == |Teams(ms)|
  {
    var ts := Teams(ms);
    TeamsCover(ms);
    Values(Accumulate(ZeroBoard(ts), ms), ts)
  }

  // ---------------------------------------------------------------------------
  // The reference: each team's statistics as sums over the match list.

  /** What match `m` adds to column `c` of team `t`: the home side's share if `t`
      is at home, the away side's share if `t` is away (both when a team is
      listed against itself), nothing if `m` was not played. */
  function Contribution(m: Match, t: string, c: Column): nat {
    if !m.matchPlayed then 0
    else
      (if m.homeTeam == t then SideStat(m.homeTeamScore, m.awayTeamScore, c) else 0)
      + (if m.awayTeam == t then SideStat(m.awayTeamScore, m.homeTeamScore, c) else 0)
  }

  /** Column `c` of team `t`, summed over the match list. */
  function Tally(ms: seq<Match>, t: string, c: Column): nat
    decreases |ms|
  {
    if ms == [] then 0 else Tally(ms[..|ms| - 1], t, c) + Contribution(ms[|ms| - 1], t, c)
  }

  /** Team `t`'s standing as sums over the match list. */
  function Row(ms: seq<Match>, t: string): (r: Standing)
    ensures r.teamName == t
    ensures forall c :: Get(r, c) == Tally(ms, t, c)
  {
    Standing(t, Tally(ms, t, MatchesPlayed), Tally(ms, t, GoalsFor), Tally(ms, t, GoalsAgainst),
             Tally(ms, t, Points))
  }

  /** The rows of teams `ts`, in that order. */
  function Rows(ms: seq<Match>, ts: seq<string>): (r: seq<Standing>)
    ensures |r| == |ts|
    ensures forall i :: 0 <= i < |ts| ==> r[i] == Row(ms, ts[i])
    decreases |ts|
  {
    if ts == [] then [] else Rows(ms, ts[..|ts| - 1]) + [Row(ms, ts[|ts| - 1])]
  }

  lemma ApplyMatchEntry(b: Board, m: Match, t: string)
    requires m.homeTeam in b && m.awayTeam in b && t in b
    ensures ApplyMatch(b, m)[t].teamName == b[t].teamName
    ensures forall c :: Get(ApplyMatch(b, m)[t], c) == Get(b[t], c) + Contribution(m, t, c)
  {
  }

  /** Each entry of the accumulated dictionary is its starting value plus the
      team's sums over the match list. */
  lemma {:induction false} AccumulateTally(b: Board, ms: seq<Match>)
    requires Covers(b, ms)
    ensures forall t :: t in b ==> Accumulate(b, ms)[t].teamName == b[t].teamName
    ensures forall t, c :: t in b ==> Get(Accumulate(b, ms)[t], c) == Get(b[t], c) + Tally(ms, t, c)
    decreases |ms|
  {
    if ms != [] {
      var p := ms[..|ms| - 1];
      var m := ms[|ms| - 1];
      AccumulateTally(b, p);
      var a := Accumulate(b, p);
      forall t | t in b
        ensures Accumulate(b, ms)[t].teamName == b[t].teamName
        ensures forall c :: Get(Accumulate(b, ms)[t], c) == Get(b[t], c) + Tally(ms, t, c)
      {
        ApplyMatchEntry(a, m, t);
      }
    }
  }

  /** The accumulated leaderboard holds, for each discovered team in
      first-seen order, the team's sums over the played matches. */
  lemma LeaderboardIsRows(ms: seq<Match>)
    ensures Leaderboard(ms) == Rows(ms, Teams(ms))
  {
    var ts := Teams(ms);
    TeamsCover(ms);
    var z := ZeroBoard(ts);
    AccumulateTally(z, ms);
    var l := Leaderboard(ms);
    var r := Rows(ms, ts);
    forall i | 0 <= i < |ts|
      ensures l[i] == r[i]
    {
      assert ts[i] in z;
      StandingExt(l[i], r[i]);
    }
  }

  // ---------------------------------------------------------------------------
  // What one played match does.

  /** A played match between two different teams credits the home entry with
      the home score against the away score, the away entry the other way
      round, touches no other entry, and hands out 3 points in all when
      decisive, 2 when drawn. */
  lemma PlayedMatchEffect(b: Board, m: Match)
    requires m.homeTeam in b && m.awayTeam in b
    requires m.matchPlayed && m.homeTeam != m.awayTeam
    ensures ApplyMatch(b, m)[m.homeTeam] == Credit(b[m.homeTeam], m.homeTeamScore, m.awayTeamScore)
    ensures ApplyMatch(b, m)[m.awayTeam] == Credit(b[m.awayTeam], m.awayTeamScore, m.homeTeamScore)
    ensures forall t :: t in b && t != m.homeTeam && t != m.awayTeam ==> ApplyMatch(b, m)[t] == b[t]
    ensures ApplyMatch(b, m)[m.homeTeam].points + ApplyMatch(b, m)[m.awayTeam].points
            == b[m.homeTeam].points + b[m.awayTeam].points
               + (if m.homeTeamScore == m.awayTeamScore then 2 else 3)
  {
  }

  // ---------------------------------------------------------------------------
  // Unplayed matches.

  lemma {:induction false} AccumulateAppend(b: Board, p: seq<Match>, q: seq<Match>)
    requires Covers(b, p + q)
    ensures Covers(b, p) && Covers(Accumulate(b, p), q)
    ensures Accumulate(b, p + q) == Accumulate(Accumulate(b, p), q)
    decreases |q|
  {
    assert forall i :: 0 <= i < |p| ==> p[i] == (p + q)[i];
    assert forall i :: 0 <= i < |q| ==> q[i] == (p + q)[|p| + i];
    if q != [] {
      var q' := q[..|q| - 1];
      assert (p + q)[..|p + q| - 1] == p + q';
      AccumulateAppend(b, p, q');
    } else {
      assert p + q == p;
    }
  }

  lemma {:induction false} TallyAppend(p: seq<Match>, q: seq<Match>, t: string, c: Column)
    ensures Tally(p + q, t, c) == Tally(p, t, c) + Tally(q, t, c)
    decreases |q|
  {
    if q == [] {
      assert p + q == p;
    } else {
      var q' := q[..|q| - 1];
      assert (p + q)[..|p + q| - 1] == p + q';
      TallyAppend(p, q', t, c);
    }
  }

  /** Removing a match that was not played from the list changes neither the
      accumulated dictionary nor any team's sums. */
  lemma UnplayedIgnored(b: Board, ms: seq<Match>, k: nat)
    requires k < |ms| && !ms[k].matchPlayed
    requires Covers(b, ms)
    ensures Covers(b, ms[..k] + ms[k + 1..])
    ensures Accumulate(b, ms[..k] + ms[k + 1..]) == Accumulate(b, ms)
    ensures forall t :: Row(ms[..k] + ms[k + 1..], t) == Row(ms, t)
  {
    var p, m, q := ms[..k], ms[k], ms[k + 1..];
    assert ms == p + ([m] + q);
    assert ms == (p + [m]) + q;
    AccumulateAppend(b, p + [m], q);
    AccumulateAppend(b, p, [m]);
    assert [m][..0] == [];
    assert Accumulate(Accumulate(b, p), [m]) == Accumulate(b, p);
    AccumulateAppend(b, p, q);
    forall t
      ensures Row(p + q, t) == Row(ms, t)
    {
      forall c
        ensures Get(Row(p + q, t), c) == Get(Row(ms, t), c)
      {
        TallyAppend(p, q, t, c);
        TallyAppend(p + [m], q, t, c);
        TallyAppend(p, [m], t, c);
        assert [m][..0] == [];
      }
      StandingExt(Row(p + q, t), Row(ms, t));
    }
  }

  /** Team `t` took part in no played match of `ms`. */
  predicate NeverPlayed(ms: seq<Match>, t: string) {
    forall i :: 0 <= i < |ms| && ms[i].matchPlayed ==> ms[i].homeTeam != t && ms[i].awayTeam != t
  }

  lemma {:induction false} NeverPlayedTally(ms: seq<Match>, t: string, c: Column)
    requires NeverPlayed(ms, t)
    ensures Tally(ms, t, c) == 0
    decreases |ms|
  {
    if ms != [] {
      NeverPlayedTally(ms[..|ms| - 1], t, c);
    }
  }

  /** A team that appears only in unplayed matches is listed with all-zero statistics. */
  lemma NeverPlayedZero(ms: seq<Match>, i: nat)
    requires i < |Teams(ms)| && NeverPlayed(ms, Teams(ms)[i])
    ensures Leaderboard(ms)[i] == Zero(Teams(ms)[i])
  {
    var t := Teams(ms)[i];
    LeaderboardIsRows(ms);
    forall c
      ensures Get(Row(ms, t), c) == Get(Zero(t), c)
    {
      NeverPlayedTally(ms, t, c);
    }
    StandingExt(Row(ms, t), Zero(t));
  }

  // ---------------------------------------------------------------------------
  // Conservation over the whole leaderboard.

  /** Column `c` summed over a list of standings. */
  function Total(s: seq<Standing>, c: Column): nat
    decreases |s|
  {
    if s == [] then 0 else Total(s[..|s| - 1], c) + Get(s[|s| - 1], c)
  }

  /** What match `m` adds to column `c`, summed over the teams `ts`. */
  function SumContribution(ts: seq<string>, m: Match, c: Column): nat
    decreases |ts|
  {
    if ts == [] then 0 else SumContribution(ts[..|ts| - 1], m, c) + Contribution(m, ts[|ts| - 1], c)
  }

  /** Over distinct teams, a match's contributions add up to its home share
      (if the home team is listed) plus its away share (if the away team is). */
  lemma {:induction false} SumContributionDistinct(ts: seq<string>, m: Match, c: Column)
    requires NoDup(ts)
    ensures SumContribution(ts, m, c) ==
            if !m.matchPlayed then 0
            else
              (if m.homeTeam in ts then SideStat(m.homeTeamScore, m.awayTeamScore, c) else 0)
              + (if m.awayTeam in ts then SideStat(m.awayTeamScore, m.homeTeamScore, c) else 0)
    decreases |ts|
  {
    if ts != [] {
      var p := ts[..|ts| - 1];
      assert ts == p + [ts[|ts| - 1]];
      SumContributionDistinct(p, m, c);
    }
  }

  lemma {:induction false} RowsTotalStep(ms: seq<Match>, ts: seq<string>, c: Column)
    requires ms != []
    ensures Total(Rows(ms, ts), c) == Total(Rows(ms[..|ms| - 1], ts), c) + SumContribution(ts, ms[|ms| - 1], c)
    decreases |ts|
  {
    if ts != [] {
      var p := ts[..|ts| - 1];
      RowsTotalStep(ms, p, c);
      var r := Rows(ms, ts);
      assert r[..|r| - 1] == Rows(ms, p);
      var r' := Rows(ms[..|ms| - 1], ts);
      assert r'[..|r'| - 1] == Rows(ms[..|ms| - 1], p);
    }
  }

  /** Summed over distinct teams that include every team of `ms`, each column
      of the rows equals what the matches hand out in that column. */
  lemma {:induction false} RowsTotal(ms: seq<Match>, ts: seq<string>, c: Column)
    requires NoDup(ts)
    requires forall i :: 0 <= i < |ms| ==> ms[i].homeTeam in ts && ms[i].awayTeam in ts
    ensures Total(Rows(ms, ts), c) == MatchTotal(ms, c)
    decreases |ms|
  {
    if ms == [] {
      forall i | 0 <= i < |ts|
        ensures Get(Rows(ms, ts)[i], c) == 0
      {
      }
      ZeroTotal(Rows(ms, ts), c);
    } else {
      RowsTotal(ms[..|ms| - 1], ts, c);
      RowsTotalStep(ms, ts, c);
      SumContributionDistinct(ts, ms[|ms| - 1], c);
    }
  }

  lemma {:induction false} ZeroTotal(s: seq<Standing>, c: Column)
    requires forall i :: 0 <= i < |s| ==> Get(s[i], c) == 0
    ensures Total(s, c) == 0
    decreases |s|
  {
    if s != [] {
      ZeroTotal(s[..|s| - 1], c);
    }
  }

  /** Over the whole leaderboard: matches played add up to twice the played
      matches, goals for and goals against each add up to every goal scored,
      and points add up to 3 per decisive match plus 2 per draw. This holds
      even for a match listed with the same team on both sides, which credits
      that team twice. */
  lemma Conservation(ms: seq<Match>)
    ensures Total(Leaderboard(ms), MatchesPlayed) == 2 * PlayedCount(ms)
    ensures Total(Leaderboard(ms), GoalsFor) == GoalsScored(ms)
    ensures Total(Leaderboard(ms), GoalsAgainst) == GoalsScored(ms)
    ensures Total(Leaderboard(ms), Points) == 3 * (PlayedCount(ms) - Draws(ms)) + 2 * Draws(ms)
  {
    var ts := Teams(ms);
    LeaderboardIsRows(ms);
    TeamsCover(ms);
    MatchTotalByColumn(ms);
    RowsTotal(ms, ts, MatchesPlayed);
    RowsTotal(ms, ts, GoalsFor);
    RowsTotal(ms, ts, GoalsAgainst);
    RowsTotal(ms, ts, Points);
  }

  // ---------------------------------------------------------------------------
  // Any reordering of the leaderboard.

  lemma MultisetTwice(s: seq<Standing>, i: nat, j: nat)
    requires i < j < |s| && s[i] == s[j]
    ensures multiset(s)[s[i]] >= 2
  {
    assert s == s[..j] + [s[j]] + s[j + 1..];
    assert s[i] in s[..j];
  }

  lemma {:induction false} DistinctNamesOnce(rs: seq<Standing>, x: Standing)
    requires forall i, j :: 0 <= i < j < |rs| ==> rs[i].teamName != rs[j].teamName
    ensures multiset(rs)[x] <= 1
    decreases |rs|
  {
    if rs != [] {
      var p := rs[..|rs| - 1];
      assert rs == p + [rs[|rs| - 1]];
      DistinctNamesOnce(p, x);
      if rs[|rs| - 1] == x {
        assert x !in p;
      }
    }
  }

  lemma PermutedRowsAreRows(ms: seq<Match>, ts: seq<string>, r: seq<Standing>)
    requires multiset(r) == multiset(Rows(ms, ts))
    ensures forall i :: 0 <= i < |r| ==> r[i] == Row(ms, r[i].teamName) && r[i].teamName in ts
  {
    var l := Rows(ms, ts);
    forall i | 0 <= i < |r|
      ensures r[i] == Row(ms, r[i].teamName) && r[i].teamName in ts
    {
      assert r[i] in multiset(r);
      assert r[i] in l;
    }
  }

  lemma PermutedRowsCover(ms: seq<Match>, ts: seq<string>, r: seq<Standing>)
    requires multiset(r) == multiset(Rows(ms, ts))
    ensures forall t :: t in ts ==> exists i :: 0 <= i < |r| && r[i].teamName == t
  {
    var l := Rows(ms, ts);
    forall t | t in ts
      ensures exists i :: 0 <= i < |r| && r[i].teamName == t
    {
      var k :| 0 <= k < |ts| && ts[k] == t;
      assert l[k] in multiset(l);
      assert l[k] in r;
    }
  }

  lemma PermutedRowsDistinct(ms: seq<Match>, ts: seq<string>, r: seq<Standing>)
    requires NoDup(ts)
    requires multiset(r) == multiset(Rows(ms, ts))
    ensures forall i, j :: 0 <= i < j < |r| ==> r[i].teamName != r[j].teamName
  {
    var l := Rows(ms, ts);
    assert forall a, b :: 0 <= a < b < |l| ==> l[a].teamName != l[b].teamName;
    forall i, j | 0 <= i < j < |r|
      ensures r[i].teamName != r[j].teamName
    {
      if r[i].teamName == r[j].teamName {
        PermutedRowsAreRows(ms, ts, r);
        MultisetTwice(r, i, j);
        DistinctNamesOnce(l, r[i]);
        assert false;
      }
    }
  }

  /** A reordering of the accumulated leaderboard holds one entry per
      discovered team, no team twice, and each entry is that team's sums over
      the played matches. */
  lemma LeaderboardPermutation(ms: seq<Match>, r: seq<Standing>)
    requires multiset(r) == multiset(Leaderboard(ms))
    ensures |r| == |Teams(ms)|
    ensures forall i :: 0 <= i < |r| ==> r[i] == Row(ms, r[i].teamName) && r[i].teamName in Teams(ms)
    ensures forall t :: t in Teams(ms) ==> exists i :: 0 <= i < |r| && r[i].teamName == t
    ensures forall i, j :: 0 <= i < j < |r| ==> r[i].teamName != r[j].teamName
  {
    var ts := Teams(ms);
    LeaderboardIsRows(ms);
    assert |r| == |multiset(r)| == |multiset(Leaderboard(ms))| == |Leaderboard(ms)|;
    PermutedRowsAreRows(ms, ts, r);
    PermutedRowsCover(ms, ts, r);
    PermutedRowsDistinct(ms, ts, r);
  }
}
