/** Team discovery: the distinct names of the match list, in first-seen order. */
module TeamDiscovery {
  import opened Model

  predicate NoDup(s: seq<string>) {
    forall i, j :: 0 <= i < j < |s| ==> s[i] != s[j]
  }

  /** Team `t` plays, or is scheduled to play, in some match of `ms`. */
  predicate Occurs(ms: seq<Match>, t: string) {
    exists i :: 0 <= i < |ms| && (ms[i].homeTeam == t || ms[i].awayTeam == t)
  }

  /** The team names of `ms` in the order the discovery walk meets them:
      home then away, match by match, repeats included. */
  function Names(ms: seq<Match>): (r: seq<string>)
    ensures |r| == 2 * |ms|
    ensures forall i :: 0 <= i < |ms| ==> r[2 * i] == ms[i].homeTeam && r[2 * i + 1] == ms[i].awayTeam
    decreases |ms|
  {
    if ms == [] then []
    else Names(ms[..|ms| - 1]) + [ms[|ms| - 1].homeTeam, ms[|ms| - 1].awayTeam]
  }

  lemma NamesOccur(ms: seq<Match>)
    ensures forall t :: t in Names(ms) <==> Occurs(ms, t)
  {
    var r := Names(ms);
    forall t
      ensures t in r <==> Occurs(ms, t)
    {
      if t in r {
        var k :| 0 <= k < |r| && r[k] == t;
        var i := k / 2;
        assert k == 2 * i || k == 2 * i + 1;
        assert ms[i].homeTeam == t || ms[i].awayTeam == t;
      }
      if Occurs(ms, t) {
        var i :| 0 <= i < |ms| && (ms[i].homeTeam == t || ms[i].awayTeam == t);
        assert r[2 * i] == ms[i].homeTeam && r[2 * i + 1] == ms[i].awayTeam;
      }
    }
  }

  /** `teams.includes(t)` guarding `teams.push(t)`. */
  function AddTeam(ts: seq<string>, t: string): (r: seq<string>)
    ensures ts <= r && t in r
    ensures forall x :: x in r <==> x in ts || x == t
    ensures NoDup(ts) ==> NoDup(r)
  {
    if t in ts then ts else ts + [t]
  }

  /** The first occurrence of each element of `s`, in order of first occurrence. */
  function Dedup(s: seq<string>): (r: seq<string>)
    ensures NoDup(r)
    ensures forall x :: x in r <==> x in s
    decreases |s|
  {
    if s == [] then [] else AddTeam(Dedup(s[..|s| - 1]), s[|s| - 1])
  }

  /** Position of the first occurrence of `x` in `s`. */
  function FirstIndex(s: seq<string>, x: string): (k: nat)
    requires x in s
    ensures k < |s| && s[k] == x && x !in s[..k]
    decreases |s|
  {
    var p := s[..|s| - 1];
    if x in p then
      var k := FirstIndex(p, x);
      assert s[..k] == p[..k];
      k
    else |s| - 1
  }

  /** Dedup keeps the elements in the order of their first occurrence. */
  lemma {:induction false} DedupFirstSeen(s: seq<string>)
    ensures forall i, j :: 0 <= i < j < |Dedup(s)| ==> FirstIndex(s, Dedup(s)[i]) < FirstIndex(s, Dedup(s)[j])
    decreases |s|
  {
    if s != [] {
      var p := s[..|s| - 1];
      var y := s[|s| - 1];
      DedupFirstSeen(p);
      var d := Dedup(p);
      assert s == p + [y];
      forall z | z in p
        ensures FirstIndex(s, z) == FirstIndex(p, z)
      {
      }
      if y !in p {
        assert FirstIndex(s, y) == |s| - 1;
        forall z | z in p
          ensures FirstIndex(s, z) < |s| - 1
        {
        }
      }
    }
  }

  /** The list `_getTeams` returns: no name twice, exactly the names that
      occur in some match (played or not), ordered by where each name is
      first met. */
  function Teams(ms: seq<Match>): (r: seq<string>)
    ensures NoDup(r)
    ensures forall t :: t in r <==> t in Names(ms)
    ensures forall t :: t in r <==> Occurs(ms, t)
    ensures forall i, j :: 0 <= i < j < |r| ==> FirstIndex(Names(ms), r[i]) < FirstIndex(Names(ms), r[j])
  {
    NamesOccur(ms);
    DedupFirstSeen(Names(ms));
    Dedup(Names(ms))
  }

  /** One step of the discovery walk: the next match adds its home team, then
      its away team, each only if not yet listed. */
  lemma TeamsStep(ms: seq<Match>, i: nat)
    requires i < |ms|
    ensures Teams(ms[..i + 1]) == AddTeam(AddTeam(Teams(ms[..i]), ms[i].homeTeam), ms[i].awayTeam)
  {
    var n := Names(ms[..i]);
    assert ms[..i + 1][..i] == ms[..i];
    var s := Names(ms[..i + 1]);
    assert s == n + [ms[i].homeTeam, ms[i].awayTeam];
    assert s[..|s| - 1] == n + [ms[i].homeTeam];
    var s1 := n + [ms[i].homeTeam];
    assert s1[..|s1| - 1] == n;
    assert Dedup(s1) == AddTeam(Dedup(n), ms[i].homeTeam);
    assert Dedup(s) == AddTeam(Dedup(s1), ms[i].awayTeam);
  }
}
