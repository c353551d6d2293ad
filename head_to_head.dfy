/** Head-to-head points: what team `a` earned in its played matches against team `b`. */
module HeadToHead {
  import opened Model
  import opened Table

  /** `m` is a played match between `a` and `b`, either way round. */
  predicate IsMeeting(m: Match, a: string, b: string) {
    m.matchPlayed && ((m.homeTeam == a && m.awayTeam == b) || (m.homeTeam == b && m.awayTeam == a))
  }

  /** What match `m` gives `a` against `b`: the 3/1/0 rule applied when `a`
      was at home to `b`, and again when `a` was away at `b`. That is exactly
      what the table credits `a` with for a meeting of the two, and nothing
      for any other match. */
  function MeetingPoints(m: Match, a: string, b: string): (p: nat)
    ensures p == if IsMeeting(m, a, b) then Contribution(m, a, Points) else 0
  {
    if !m.matchPlayed then 0
    else
      (if m.homeTeam == a && m.awayTeam == b then ResultPoints(m.homeTeamScore, m.awayTeamScore) else 0)
      + (if m.awayTeam == a && m.homeTeam == b then ResultPoints(m.awayTeamScore, m.homeTeamScore) else 0)
  }

  /** Head-to-head points of `a` against `b` over the match list. They are
      part of `a`'s points and never exceed them. */
  function HeadToHeadPoints(ms: seq<Match>, a: string, b: string): (p: nat)
    ensures p <= Tally(ms, a, Points)
    decreases |ms|
  {
    if ms == [] then 0 else HeadToHeadPoints(ms[..|ms| - 1], a, b) + MeetingPoints(ms[|ms| - 1], a, b)
  }

  /** The played matches between `a` and `b`, in list order. */
  function Meetings(ms: seq<Match>, a: string, b: string): (r: seq<Match>)
    ensures forall i :: 0 <= i < |r| ==> IsMeeting(r[i], a, b)
    ensures forall i :: 0 <= i < |ms| && IsMeeting(ms[i], a, b) ==> ms[i] in r
    ensures forall m :: m in r ==> m in ms
    ensures |r| <= |ms| && multiset(r) <= multiset(ms)
    decreases |ms|
  {
    if ms == [] then []
    else
      var p := Meetings(ms[..|ms| - 1], a, b);
      assert ms == ms[..|ms| - 1] + [ms[|ms| - 1]];
      if IsMeeting(ms[|ms| - 1], a, b) then p + [ms[|ms| - 1]] else p
  }

  /** Head-to-head points are the table's 3/1/0 points of `a`, counted over
      the played meetings of `a` and `b` only. */
  lemma {:induction false} HeadToHeadIsMeetingTally(ms: seq<Match>, a: string, b: string)
    ensures HeadToHeadPoints(ms, a, b) == Tally(Meetings(ms, a, b), a, Points)
    decreases |ms|
  {
    if ms != [] {
      var p := ms[..|ms| - 1];
      var m := ms[|ms| - 1];
      HeadToHeadIsMeetingTally(p, a, b);
      var r := Meetings(p, a, b);
      if IsMeeting(m, a, b) {
        assert (r + [m])[..|r|] == r;
      }
    }
  }

  /** Only played meetings of the two teams count: dropping every other match
      leaves the head-to-head points unchanged. */
  lemma {:induction false} OnlyMeetingsCount(ms: seq<Match>, a: string, b: string)
    ensures HeadToHeadPoints(ms, a, b) == HeadToHeadPoints(Meetings(ms, a, b), a, b)
    decreases |ms|
  {
    if ms != [] {
      var p := ms[..|ms| - 1];
      var m := ms[|ms| - 1];
      OnlyMeetingsCount(p, a, b);
      var r := Meetings(p, a, b);
      if IsMeeting(m, a, b) {
        assert (r + [m])[..|r|] == r;
      }
    }
  }

  /** Two teams that never met in a played match have no head-to-head points. */
  lemma {:induction false} NoMeetingNoPoints(ms: seq<Match>, a: string, b: string)
    requires forall i :: 0 <= i < |ms| ==> !IsMeeting(ms[i], a, b)
    ensures HeadToHeadPoints(ms, a, b) == 0
    decreases |ms|
  {
    if ms != [] {
      NoMeetingNoPoints(ms[..|ms| - 1], a, b);
    }
  }

  /** Between two different teams, one match gives both sides together the
      points it awards if it is a meeting of the two, and nothing otherwise. */
  lemma MeetingPair(m: Match, a: string, b: string)
    requires a != b
    ensures MeetingPoints(m, a, b) + MeetingPoints(m, b, a) == if IsMeeting(m, a, b) then Awarded(m, Points) else 0
  {
  }

  lemma {:induction false} HeadToHeadSum(ms: seq<Match>, a: string, b: string)
    requires a != b
    ensures HeadToHeadPoints(ms, a, b) + HeadToHeadPoints(ms, b, a) == MatchTotal(Meetings(ms, a, b), Points)
    decreases |ms|
  {
    if ms != [] {
      var p := ms[..|ms| - 1];
      var m := ms[|ms| - 1];
      HeadToHeadSum(p, a, b);
      MeetingPair(m, a, b);
      var r := Meetings(p, a, b);
      if IsMeeting(m, a, b) {
        assert (r + [m])[..|r|] == r;
      }
    }
  }

  /** Between two different teams, the head-to-head points of both sides add
      up to 3 per decisive meeting and 2 per drawn one. */
  lemma HeadToHeadShare(ms: seq<Match>, a: string, b: string)
    requires a != b
    ensures HeadToHeadPoints(ms, a, b) + HeadToHeadPoints(ms, b, a)
            == 3 * (PlayedCount(Meetings(ms, a, b)) - Draws(Meetings(ms, a, b))) + 2 * Draws(Meetings(ms, a, b))
  {
    HeadToHeadSum(ms, a, b);
    MatchTotalByColumn(Meetings(ms, a, b));
  }
}
