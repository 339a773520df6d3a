# League service model

A Dafny model of the `LeagueService` of the Sports-League web application
(`src/services/LeagueService.js`). The service keeps a match schedule and
turns it into a leaderboard:

- it collects every team that occurs in a match, played or not, with zeroed counters;
- it folds the played matches into the team records: matches played, goals for and against, goal difference, points (3 for a win, 1 for a draw, 0 for a loss), and the points each team earned against each opponent ("head-to-head");
- it sorts the records by points, then head-to-head when exactly two teams share that point total, then goal difference, then goals for, then team name;
- `fetchData` fetches an access token and then the schedule, and stores the schedule.

Modules, in dependency order:

| file | module | contents |
|---|---|---|
| `seqs.dfy` | `SeqFacts` | duplicate-free sequences, element sets, multisets, swaps |
| `fixtures.dfy` | `Fixtures` | the `Match` record, the set of teams of a schedule, played matches |
| `names.dfy` | `TeamNames` | the name tie-break: lexicographic comparison by Unicode code point |
| `standings.dfy` | `Standings` | team records and the specification of the leaderboard computation as functions: `Discover` (team discovery in first-seen order), `ApplyMatch`/`Aggregate` (folding in matches), `Table`, `TeamList` |
| `aggregation.dfy` | `Aggregation` | lemmas about the fold: order independence, skipping unplayed matches, consistency of derived fields, monotonicity, totals |
| `ranking.dfy` | `Ranking` | the comparator `Compare`, `Sorted`, and lemmas that it is a strict total order on a league's records, so sorting has one result |
| `leaderboard.dfy` | `Leaderboard` | `IsLeaderboard(ms, board)`: `board` is the team list of `ms` sorted by the comparator, and what follows for every such board |
| `league.dfy` | `League` | `class LeagueService` with its `matches` field and the service's methods, written as loops over maps and an array and proved against the functions above |

`GetLeaderboard` follows the source step by step:

- `InitializeTeams`: a loop over the schedule that adds zeroed records to a map;
- `CalculateStatistics`: a loop that credits the two sides of each played match (`TallyMatch`, `UpdateHeadToHead`);
- `SortTeams`: an in-place sort of an array of the records.

Its postcondition `IsLeaderboard(matches, board)` says the result is a permutation of the specified team list, sorted by the comparator. The `Leaderboard` lemmas then state what every such board satisfies.

## Model

| member | source | states |
|---|---|---|
| League.LeagueService.constructor | src/services/LeagueService.js:13-16 | a new service has an empty schedule |
| League.LeagueService.SetMatches | src/services/LeagueService.js:44-46 | the schedule becomes exactly the given list |
| League.LeagueService.GetMatches | src/services/LeagueService.js:53-55 | returns the stored schedule unchanged |
| League.StoreRoundTrip | src/services/LeagueService.js:44-55 | reading the schedule after setting it returns the list that was set |
| League.LeagueService.FetchData | src/services/LeagueService.js:134-162 | a failed token request or a token reply without `success` is an error and the matches endpoint is never asked. Otherwise the header sent is `"Bearer "` followed by the token. A failed matches request or a reply without `success` is an error. Only a successful reply stores its matches and returns them; on every error the schedule is unchanged |
| League.LeagueService.GetLeaderboard | src/services/LeagueService.js:72-129 | the result is a permutation of the team list of the schedule (one aggregated record per team) and is sorted by the ranking comparator |
| League.LeagueService.BuildTable | src/services/LeagueService.js:73-125 | the map built is the specified table of the schedule, and the name order is the first-seen order |
| League.LeagueService.InitializeTeams | src/services/LeagueService.js:75-90 | one zeroed record per team name that occurs as home or away side, keyed by its own name, names listed in first-seen order (home side before away side) |
| League.LeagueService.CalculateStatistics | src/services/LeagueService.js:92-125 | the table after folding every match of the schedule in order; an unplayed match changes nothing |
| League.LeagueService.TallyMatch | src/services/LeagueService.js:96-124 | each side gets one more match, its own goals for and against, a goal difference recomputed from them, and 3/1/0 points by result; the same points are added to its head-to-head entry for the other side |
| League.LeagueService.UpdateHeadToHead | src/services/LeagueService.js:164-180 | each side's entry for the other grows by its points, a missing entry counting as 0; no other field of either record changes |
| League.LeagueService.SortTeams | src/services/LeagueService.js:182-211 | the array afterwards is a permutation of its old contents, sorted by the comparator evaluated against the list being sorted |
| League.LeagueService.InsertLast | src/services/LeagueService.js:182-211 | one insertion step: the array stays a permutation, its sorted prefix grows by one, and the unsorted part after position `i` is untouched |
| Standings.Zeroed | src/services/LeagueService.js:79-87 | the record a newly seen team starts with: every counter zero and no head-to-head entry; League.LeagueService.InitializeTeams and Leaderboard.IdleTeamIsZero state where it appears |
| Standings.Initial | src/services/LeagueService.js:76-90 | one zeroed record per discovered name, keyed by that name; Leaderboard.OneRecordPerTeam carries its consequences for the board |
| Standings.ResultPoints | src/services/LeagueService.js:114-124 | the 3/1/0 rule: 3 to the side that scored more, 1 to each side of a draw, 0 to the side that scored less; Aggregation.CreditConsistent and Leaderboard.RecordsConsistent tie the points total to the head-to-head entries |
| Standings.Credit | src/services/LeagueService.js:99-124 | one side's record after a played match: one more match, its goals for and against added, goal difference recomputed, result points added to its total and to its head-to-head entry for the opponent; Aggregation.CreditByFields proves the source's field-by-field update equals it, and Aggregation.CreditConsistent proves it keeps the derived fields consistent |
| Standings.AddPoints | src/services/LeagueService.js:164-180 | the head-to-head map after points against one opponent, a missing entry starting at 0; its properties are Aggregation.AddPointsEffect |
| Standings.ApplyMatch | src/services/LeagueService.js:93-125 | one match folded into the table: unplayed changes nothing, played credits both sides; it keeps the table's keys and keeps every record under its own name. Order facts are Aggregation.ApplyMatchCommutes |
| Standings.Aggregate | src/services/LeagueService.js:93-125 | the schedule folded into the table from first match to last; it keeps the keys and the keying. Aggregation.AggregatePermutation, AggregatePlayedOnly, AggregateConsistent, AggregateGrows and AggregateTotals carry its properties |
| Standings.TeamList | src/services/LeagueService.js:127 | the records handed to the sort: each discovered team's aggregated record, in first-seen (Map insertion) order; Leaderboard.OneRecordPerTeam states its contents |
| Ranking.Compare | src/services/LeagueService.js:183-211 | the comparator chain: points, then head-to-head when exactly two teams of the list share the points, then goal difference, goals for and name. Its ordering facts are Ranking.CompareAntisymmetric, CompareZero, CompareTransitive and CompareSameContext |
| Ranking.Sorted | src/services/LeagueService.js:183-211 | a list is ordered by the comparator evaluated against the list being sorted; Ranking.SortedUnique, SortedStrict and SortedOrder carry its properties |
| Leaderboard.IsLeaderboard | src/services/LeagueService.js:127-129 | the result of getLeaderboard: a permutation of the team list sorted by the comparator; every Leaderboard lemma states a consequence of it |
| Standings.Discover | src/services/LeagueService.js:76-90 | the discovered names are duplicate-free and are exactly the teams occurring in the schedule |
| Standings.Table | src/services/LeagueService.js:73-125 | the table has a record for exactly the teams of the schedule, each stored under its own name |
| Fixtures.TeamsOfMembers | src/services/LeagueService.js:76-90 | a name is a team of the schedule if and only if it is the home or away side of some match |
| Fixtures.PlayedOnly | src/services/LeagueService.js:94 | the played matches of a schedule: exactly its matches with `matchPlayed` set, as many as `PlayedCount` counts |
| Aggregation.AddPointsEffect | src/services/LeagueService.js:164-180 | adding head-to-head points creates a missing entry at 0 plus the points, leaves every other entry alone, never lowers an entry, and raises the entries' sum by exactly the points |
| Aggregation.CreditByFields | src/services/LeagueService.js:99-124 | a record whose every field was updated as the source does, field by field, is the record `Credit` specifies |
| Aggregation.CreditConsistent | src/services/LeagueService.js:109-124 | crediting a match keeps goal difference = goals for − goals against and points = sum of head-to-head entries |
| Aggregation.AggregateConsistent | src/services/LeagueService.js:93-125 | folding any schedule into consistent records keeps every record consistent |
| Aggregation.AggregateGrows | src/services/LeagueService.js:93-125 | as matches are folded in, no counter of a team decreases and no head-to-head entry disappears or decreases |
| Aggregation.ApplyMatchCommutes | src/services/LeagueService.js:93-125 | folding in two matches gives the same table in either order |
| Aggregation.AggregatePermutation | src/services/LeagueService.js:93-125 | any reordering of the schedule gives the same table |
| Aggregation.AggregatePlayedOnly | src/services/LeagueService.js:94 | the table depends only on the played matches: dropping the unplayed ones changes nothing |
| Aggregation.UntouchedTeam | src/services/LeagueService.js:94-97 | a team in no played match keeps its initial record |
| Aggregation.ApplyMatchTotals | src/services/LeagueService.js:99-107 | one played match adds 2 to the total of matches played and equal amounts to the totals of goals for and goals against; an unplayed one adds nothing |
| Aggregation.AggregateTotals | src/services/LeagueService.js:93-125 | over a schedule, the total of matches played grows by twice the number of played matches, and goals for minus goals against summed over all teams is unchanged |
| Aggregation.SumOfPermutation | src/services/LeagueService.js:127 | a total over the records does not depend on their order |
| Ranking.WithPoints | src/services/LeagueService.js:190 | the teams with a given point total are exactly the listed teams with that total |
| Ranking.CompareAntisymmetric | src/services/LeagueService.js:183-211 | swapping the two teams negates the comparator's result |
| Ranking.CompareZero | src/services/LeagueService.js:183-211 | the comparator returns 0 only for two records with the same team name, and always for a record with itself |
| Ranking.CompareTransitive | src/services/LeagueService.js:183-211 | on the teams of one list, "ranks no lower than" is transitive, including through the two-team head-to-head step |
| Ranking.WithPointsAtLeastThree | src/services/LeagueService.js:190-191 | three different teams on the same points make that group larger than two, so head-to-head is skipped for them |
| Ranking.CompareSameContext | src/services/LeagueService.js:190 | the comparator gives the same answer against any permutation of the list being sorted |
| Ranking.SortedUnique | src/services/LeagueService.js:182-211 | two sorted permutations of a list of distinctly named teams are equal: the sort has exactly one result |
| Ranking.SortedStrict | src/services/LeagueService.js:182-211 | in a sorted list of distinctly named teams every earlier team ranks strictly above every later one |
| Ranking.SortedOrder | src/services/LeagueService.js:184-210 | a sorted list is ordered by points descending. Among equal points, head-to-head decides only when exactly two teams have that total. Otherwise, or on a head-to-head tie, it is goal difference, then goals for, then name |
| TeamNames.NameCompare | src/services/LeagueService.js:210 | the name comparison returns −1, 0 or 1 |
| TeamNames.NameCompareZero | src/services/LeagueService.js:210 | two names compare equal exactly when they are the same string |
| TeamNames.NameCompareAntisymmetric | src/services/LeagueService.js:210 | swapping the names negates the comparison |
| TeamNames.NameCompareTransitive | src/services/LeagueService.js:210 | the name order is transitive |
| TeamNames.NameCompareIsLexicographic | src/services/LeagueService.js:210 | a name comes first exactly when it is a proper prefix of the other or is smaller at the first differing character |
| Leaderboard.SortedTeamList | src/services/LeagueService.js:127 | a sorted permutation of the team list is a leaderboard |
| Leaderboard.OneRecordPerTeam | src/services/LeagueService.js:73-90 | a leaderboard has exactly one record per team of the schedule, all names distinct, each the team's aggregated record |
| Leaderboard.IdleTeamIsZero | src/services/LeagueService.js:79-94 | a team that occurs only in unplayed matches appears with every counter zero and no head-to-head entry |
| Leaderboard.OnlyPlayedMatchesCount | src/services/LeagueService.js:94 | every record on the leaderboard equals the record aggregated over the played matches alone |
| Leaderboard.Conservation | src/services/LeagueService.js:99-107 | over a leaderboard, matches played sum to twice the number of played matches, and total goals for equal total goals against |
| Leaderboard.RecordsConsistent | src/services/LeagueService.js:109-124 | every record on a leaderboard has goal difference = goals for − goals against and points = the sum of its head-to-head entries |
| Leaderboard.LeaderboardStrict | src/services/LeagueService.js:182-211 | no two teams on a leaderboard compare equal: each ranks strictly above every team after it |
| Leaderboard.TablePermutation | src/services/LeagueService.js:72-125 | reordering the schedule changes neither the set of teams nor any team's record |
| Leaderboard.TeamListPermutation | src/services/LeagueService.js:72-127 | reordering the schedule gives the same records to sort, in some order |
| Leaderboard.OrderIndependent | src/services/LeagueService.js:72-129 | the leaderboards of two reorderings of one schedule are identical |
| Leaderboard.EmptyLeague | src/services/LeagueService.js:72-129 | an empty schedule gives an empty leaderboard |
| Leaderboard.HeadToHeadBeforeGoalDifference | src/services/LeagueService.js:189-202 | with a beating b 1-0 and b beating c 5-0, a and b are the only teams on 3 points. a ranks above b on head-to-head although b has the better goal difference, and c is last |

## Left out

- Record identity: the source mutates team objects held in a `Map` and sorts an array of references to them. The model keeps records as values in a map and copies them into the array to be sorted. No record escapes during the computation, so the resulting values are the same; aliasing itself is not modelled.
- Schedule aliasing: `setMatches` stores the caller's array itself, and `getMatches` returns that same array. A later change to the array by its holder would show through the service. The model stores and returns a sequence value, so no such sharing exists in it.
- A match whose home and away team are the same (`Fixtures.WellFormed` is a precondition). The source would credit one object twice, for example two matches played for one fixture; the schedule's format rules this out.
- Malformed schedules: missing fields, non-numeric or negative scores, non-boolean `matchPlayed`. Scores are `nat` and fields are typed.
- JavaScript numbers: counters and scores are unbounded integers, with no floating-point rounding above 2^53.
- TeamNames.NameCompare: compares by Unicode code point (lexicographic on `char` values), not by the locale-aware collation of `String.prototype.localeCompare`. The orders differ:
  - a locale puts "arsenal" before "Chelsea", and code-point order does not;
  - code points above U+FFFF sort after all others, where UTF-16 code units would not;
  - `localeCompare` returns 0 for distinct but canonically equivalent names, such as a precomposed "é" and "e" followed by a combining accent. Two such teams can tie at the last step of the comparator, and their order then depends on the sort and the input order.

  Ranking.CompareZero, Ranking.SortedUnique and Leaderboard.OrderIndependent rely on distinct names never comparing equal. They hold for this model's name order, not for such names under `localeCompare`.
- League.LeagueService.SortTeams: an insertion sort stands in for the engine's `Array.prototype.sort` algorithm. Only the result is specified: a permutation sorted by the comparator, which `Ranking.SortedUnique` shows is unique for distinct team names.
- Ranking.Compare: the comparator's point groups (`teams.filter` inside the comparator) are counted in the list as it was when sorting began. The group size is the same for every permutation of that list (`Ranking.CompareSameContext`), so any moment during the sort gives the same answer.
- League.LeagueService.FetchData:
  - the HTTP transport, JSON decoding, `async`/`await` and the `console.error` log are not modelled;
  - the replies of the two endpoints are parameters, and a request or decoding failure is the `Failed` case;
  - `API_BASE_URL` and the endpoint paths are not modelled;
  - the thrown exceptions become `Err` values naming which step failed.
- The UI components (`App.js`, `Layout.js`, `Schedule.js`, `Leaderboard.js`, `NotFound.js`) and their date formatting are not part of this model.
