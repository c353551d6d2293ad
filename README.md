# League standings engine

A Dafny model of `LeagueService`, the standings engine of a football league web UI.

The service holds a match schedule. Each match has a home team, an away team, a "played" flag and two scores. From the schedule the service computes a leaderboard in three steps:

1. **Team discovery.** It collects the distinct team names, in the order they are first met (home before away, match by match).
2. **Accumulation.** It starts every team at zero. For each played match it credits both sides: one more match played, goals for, goals against, and 3 points for a win, 1 for a draw, 0 for a loss.
3. **Ranking.** It sorts the standings with a five-step comparator: points, then head-to-head points, then goal difference, then goals scored, then team name.

The project has six modules:

- `Model` (`model.dfy`) holds the match and standing records and the 3/1/0 rule. It also defines per-list counts: played matches, draws and goals scored.
- `TeamDiscovery` (`teams.dfy`) specifies the team list. It is the deduplication, in first-seen order, of the home and away names.
- `Table` (`table.dfy`) has two parts:
  - the dictionary fold that the service performs (`ZeroBoard`, `ApplyMatch`, `Accumulate`, `Leaderboard`);
  - an independent per-team reference (`Tally`, `Row`), where each statistic is a sum over the match list.

  Lemmas tie the two together and prove conservation, that unplayed matches are ignored, and what a reordering of the leaderboard contains.
- `HeadToHead` (`head_to_head.dfy`) defines head-to-head points and relates them to the meetings of the two teams.
- `Ranking` (`ranking.dfy`) defines the comparator, its cascade reading and its antisymmetry. It also exhibits three teams for which the comparator is not transitive.
- `Service` (`league_service.dfy`) is the `LeagueService` class. Its `matches` field is overwritten by `SetMatches`. Its loops are proved against the functions above, and it sorts in place on an array.

Several design points shape the model:

- **Team names compare by character code.** The last tie-break uses `localeCompare` in the source. The model replaces it with `NameOrder`, plain lexicographic order on character codes. It is proved to be a strict total order that is zero only on equal names.
- **The comparator is not transitive.** The head-to-head step is pairwise. In `Ranking.CircleMatches`, A beats B, B beats C and C beats A, each 1-0, so all three end level on points, goal difference and goals scored. Each of them then ranks above the next (`Ranking.CompareNotTransitive`). No order can satisfy every pair, so the model promises only two things about the ranking:
  - it is a permutation of the accumulated standings;
  - every adjacent pair is in comparator order. Because names are distinct, that order is strict (`Ranking.RankedStrict`).
- **The sort is an insertion sort.** Its loop invariant never uses transitivity. The ranked part is split at the moving entry, and the two neighbours of the moving entry are kept in order with each other.
- **A team listed against itself is credited twice.** For a match whose home and away team are the same, the source updates that team's entry twice, once per side. The model does the same. The conservation lemmas hold without a precondition that the two teams differ.

## Model

| member | source | states |
|---|---|---|
| Model.ResultPoints | src/services/LeagueService.js:100-104 | a side earns 3 exactly when it scored more, 1 exactly on a draw, 0 exactly when it scored less |
| Model.AwardedPoints | src/services/LeagueService.js:100-104 | one played match hands out 2 points in all when drawn and 3 when decisive |
| Model.MatchTotalByColumn | src/services/LeagueService.js:94-104 | over a match list, the sides of played matches add up to two appearances per played match, every goal once as scored and once as conceded, and 3 points per decisive match plus 2 per draw |
| TeamDiscovery.Names | src/services/LeagueService.js:115-123 | the walk meets 2 names per match, the home name at position 2i and the away name at 2i+1 |
| TeamDiscovery.NamesOccur | src/services/LeagueService.js:115-123 | a name is met by the walk exactly when it is the home or away team of some match, played or not |
| TeamDiscovery.Dedup | src/services/LeagueService.js:116-122 | the includes-guarded push yields a list with no repeats holding exactly the elements of its input |
| TeamDiscovery.DedupFirstSeen | src/services/LeagueService.js:112-126 | deduplication keeps elements in the order of their first occurrence |
| TeamDiscovery.AddTeam | src/services/LeagueService.js:116-122 | the includes-guarded push keeps the list as a prefix, adds the name if absent and nothing else, and never creates a repeat |
| TeamDiscovery.Teams | src/services/LeagueService.js:112-126 | the team list has no duplicates, holds exactly the teams of some match (played or not), and lists them in first-seen order |
| TeamDiscovery.TeamsStep | src/services/LeagueService.js:115-123 | one match extends the team list by its home team, then its away team, each only if absent |
| Table.ZeroBoard | src/services/LeagueService.js:76-79 | the reduce builds a dictionary keyed by exactly the discovered teams, each mapped to a standing with its own name and every statistic at 0 |
| Table.ZeroBoardStep | src/services/LeagueService.js:76-79 | each reduce step adds the next team with its zero standing |
| Table.Credit | src/services/LeagueService.js:94-105 | an update keeps the team name and adds one match, the goals for, the goals against and the 3/1/0 points to the entry |
| Table.ApplyMatch | src/services/LeagueService.js:82-85 | processing one match never adds or removes a dictionary key |
| Table.Accumulate | src/services/LeagueService.js:81-86 | the forEach over the matches keeps the key set of the dictionary |
| Table.AccumulateStep | src/services/LeagueService.js:81-86 | the forEach handles the matches one after another, in list order |
| Table.TeamsCover | src/services/LeagueService.js:74-79 | every home and away team of every match has an entry in the zeroed dictionary, so the lookup in the update always succeeds |
| Table.Values | src/services/LeagueService.js:88 | `Object.values` yields one entry per team, in team-list order, entry i being the dictionary value for team i |
| Table.Leaderboard | src/services/LeagueService.js:73-88 | the accumulated standings have one entry per discovered team |
| Table.Row | src/services/LeagueService.js:94-104 | a team's reference standing carries its name, and each statistic is that team's sum over the played matches |
| Table.Rows | src/services/LeagueService.js:88 | the reference standings of a team list, one per team, in list order |
| Table.ApplyMatchEntry | src/services/LeagueService.js:82-84 | one match adds to an entry exactly what that team earns from it (both sides when a team meets itself) and keeps its name |
| Table.AccumulateTally | src/services/LeagueService.js:81-86 | after the forEach, each entry is its start value plus the team's sums over the match list |
| Table.LeaderboardIsRows | src/services/LeagueService.js:73-88 | the accumulated leaderboard is, in first-seen team order, each team's sums over the played matches |
| Table.PlayedMatchEffect | src/services/LeagueService.js:82-84 | a played match between two different teams credits the home entry with home-against-away, the away entry with away-against-home, leaves every other entry alone, and adds 3 points in all (2 if drawn) |
| Table.UnplayedIgnored | src/services/LeagueService.js:81-86 | removing an unplayed match leaves the accumulated dictionary and every team's sums unchanged |
| Table.NeverPlayedZero | src/services/LeagueService.js:76-86 | a discovered team with no played match keeps every statistic at 0 |
| Table.RowsTotal | src/services/LeagueService.js:81-104 | over distinct teams covering every match, each statistic sums to what the matches hand out in it |
| Table.Conservation | src/services/LeagueService.js:81-104 | over the leaderboard, matches played total twice the played matches, goals for and goals against each total every goal scored, and points total 3 per decisive match plus 2 per draw |
| Table.LeaderboardPermutation | src/services/LeagueService.js:88 | any reordering of the leaderboard has one entry per discovered team and no team twice, and each entry is that team's sums over the played matches |
| HeadToHead.MeetingPoints | src/services/LeagueService.js:170-186 | one match gives team A the table's 3/1/0 points for A when it is a played meeting of A and B, either way round, and nothing otherwise |
| HeadToHead.HeadToHeadPoints | src/services/LeagueService.js:166-190 | team A's head-to-head points against B never exceed A's total points |
| HeadToHead.Meetings | src/services/LeagueService.js:169-187 | the played matches between the two teams, in either orientation: only those, and every one of them, each at most as often as in the list |
| HeadToHead.HeadToHeadIsMeetingTally | src/services/LeagueService.js:166-190 | head-to-head points are team A's points under the table's 3/1/0 rule, counted over the played meetings of A and B only |
| HeadToHead.OnlyMeetingsCount | src/services/LeagueService.js:169-187 | head-to-head points depend only on the played meetings of the two teams |
| HeadToHead.NoMeetingNoPoints | src/services/LeagueService.js:166-190 | two teams that never met in a played match have 0 head-to-head points |
| HeadToHead.HeadToHeadSum | src/services/LeagueService.js:169-187 | between two different teams, both sides' head-to-head points add up to the points their meetings hand out |
| HeadToHead.HeadToHeadShare | src/services/LeagueService.js:169-187 | between two different teams, both sides' head-to-head points add up to 3 per decisive meeting and 2 per drawn one |
| Ranking.NameOrder | src/services/LeagueService.js:153 | the name tie-break is -1, 0 or 1, and 0 exactly for equal names |
| Ranking.NameOrderAntisymmetric | src/services/LeagueService.js:153 | swapping the names negates the name tie-break |
| Ranking.NameOrderTransitive | src/services/LeagueService.js:153 | the name tie-break is transitive |
| Ranking.Compare | src/services/LeagueService.js:134-154 | the comparator returns 0 exactly when name, points, goals for and goals against all agree |
| Ranking.CompareIsCascade | src/services/LeagueService.js:134-154 | the comparator is antisymmetric, and it puts x first exactly when x has more points; or equal points and more head-to-head points; or then a better goal difference; or then more goals; or then the earlier name |
| Ranking.InsertSwap | src/services/LeagueService.js:134 | swapping the moving entry past a predecessor the comparator puts after it keeps both sorted segments and the bridge between its neighbours |
| Ranking.SwapPermutes | src/services/LeagueService.js:134 | swapping two adjacent entries keeps the multiset of entries |
| Ranking.InsertDone | src/services/LeagueService.js:134 | an insertion pass that stops leaves the prefix up to the inserted entry in adjacent comparator order |
| Ranking.RankedStrict | src/services/LeagueService.js:134-154 | when team names are distinct, every adjacent pair of a ranked list is strictly ordered |
| Ranking.CompareNotTransitive | src/services/LeagueService.js:141-142 | in a three-team circle of 1-0 wins, each team ranks strictly above the next, so the comparator is not transitive |
| Service.LeagueService.constructor | src/services/LeagueService.js:15-17 | a new service holds no matches |
| Service.LeagueService.SetMatches | src/services/LeagueService.js:45-47 | the held list becomes exactly the given list |
| Service.LeagueService.GetMatches | src/services/LeagueService.js:54-56 | returns exactly the held list, same elements in the same order |
| Service.LeagueService.GetTeams | src/services/LeagueService.js:112-126 | the loop returns the team list: no duplicates, exactly the teams of the matches |
| Service.LeagueService.UpdateLeaderboard | src/services/LeagueService.js:94-105 | the named entry is credited with the result and every other entry is unchanged |
| Service.LeagueService.GetHeadToHeadPoints | src/services/LeagueService.js:166-190 | the loop returns team A's head-to-head points against team B |
| Service.LeagueService.CompareStandings | src/services/LeagueService.js:134-154 | the callback returns the comparator's value, head-to-head points included |
| Service.LeagueService.GenerateRanking | src/services/LeagueService.js:133-157 | returns a permutation of the given standings in which every adjacent pair is in comparator order |
| Service.LeagueService.Sort | src/services/LeagueService.js:134-154 | sorts the array in place into a permutation of its contents in adjacent comparator order |
| Service.LeagueService.Insert | src/services/LeagueService.js:134-154 | one insertion pass extends the ranked prefix by one entry and keeps the array's contents |
| Service.LeagueService.ZeroedLeaderboard | src/services/LeagueService.js:76-79 | the reduce loop builds the zeroed dictionary of the discovered teams |
| Service.LeagueService.CreditMatches | src/services/LeagueService.js:81-86 | the forEach loop leaves the dictionary as the fold of the match list |
| Service.LeagueService.GetLeaderboard | src/services/LeagueService.js:73-89 | returns a permutation of the accumulated standings, one per discovered team, in adjacent comparator order |

## Left out

- `fetchData` (src/services/LeagueService.js:195-211) is not modelled. It is asynchronous HTTP plus token caching in local storage, and its only effect on the service is `SetMatches` with the fetched list.
- The React pages and the app shell are not part of this model. They are presentation only.
- The match fields `matchDate` and `stadium` are not modelled, because the engine never reads them.
- Ranking.NameOrder: it stands in for `localeCompare` as plain lexicographic order on character codes. Locale collation is a library the model cannot see.
- Malformed input is not modelled: scores are natural numbers. `NaN`, negative or fractional scores and non-string names are out of scope. Numbers are unbounded rather than IEEE doubles, which only differ above 2^53.
- Table.Values: `Object.values` is modelled as the entries in team-discovery order, one per team. Two JavaScript object-key cases are not modelled. Integer-like keys are listed first, in numeric order. A team named `__proto__` sets the accumulator's prototype instead of adding a key, so its standing is accumulated but missing from the output, which then has one entry fewer than the team list; the model lists it like any other team.
- Service.LeagueService.GetLeaderboard: states a permutation in adjacent comparator order, not the exact order the engine's `Array.prototype.sort` produces. That algorithm is implementation-defined, and with a non-transitive comparator so is its result.
- Service.LeagueService.GenerateRanking: promises the same as `GetLeaderboard`, for the same reason. It returns a new sequence rather than the caller's array object.
- Service.LeagueService.Sort: an insertion sort, not the engine's algorithm. It promises a permutation in adjacent comparator order.
- Standings are values, not shared objects. The source mutates the dictionary's entry objects in place, and `Object.values` hands the same objects to the sort. Nothing else holds them, so the difference cannot be observed.
- Service.LeagueService.SetMatches: stores the list as a value. The source keeps a reference to the caller's array, so a later mutation of that array by the caller would show through; that is not modelled.
