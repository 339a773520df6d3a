/**
 The leaderboard of a list of matches: the team list sorted by the ranking
 comparator. Sorting may pick any algorithm, so a leaderboard is specified as
 a sorted permutation of the team list; the lemmas below state what every
 such list satisfies.
 */
module Leaderboard {
  import opened SeqFacts
  import opened Fixtures
  import opened TeamNames
  import opened Standings
  import opened Aggregation
  import opened Ranking

  /** `board` is the team list of `ms` reordered so that it is sorted by the comparator. */
  predicate IsLeaderboard(ms: seq<Match>, board: seq<TeamStanding>)
    requires AllWellFormed(ms)
  {
    multiset(board) == multiset(TeamList(ms)) && Sorted(TeamList(ms), board)
  }

  /**
   The records of a keyed table for duplicate-free names have distinct names,
   and hold exactly the table's records for those names.
   */
  lemma RecordsFacts(names: seq<string>, t: map<string, TeamStanding>)
    requires NoDup(names) && Keyed(t)
    requires forall n :: n in names ==> n in t
    ensures DistinctNames(Records(names, t)) && NoDup(Records(names, t))
    ensures forall r :: r in Records(names, t) ==> r.teamName in Elements(names) && r == t[r.teamName]
    ensures forall n :: n in Elements(names) ==> t[n] in Records(names, t)
  {
    var rs := Records(names, t);
    assert forall i :: 0 <= i < |rs| ==> rs[i].teamName == names[i];
    forall n | n in Elements(names)
      ensures t[n] in rs
    {
      var i :| 0 <= i < |names| && names[i] == n;
      assert rs[i] == t[n];
    }
  }

  /**
   The unsorted team list holds one record per team of the matches, in
   first-seen order, and each record is that team's aggregate.
   */
  lemma TeamListFacts(ms: seq<Match>)
    requires AllWellFormed(ms)
    ensures |TeamList(ms)| == |TeamsOf(ms)|
    ensures DistinctNames(TeamList(ms)) && NoDup(TeamList(ms))
    ensures forall r :: r in TeamList(ms) ==> r.teamName in TeamsOf(ms) && r == Table(ms)[r.teamName]
    ensures forall n :: n in TeamsOf(ms) ==> Table(ms)[n] in TeamList(ms)
  {
    var names, t := Discover(ms), Table(ms);
    NoDupCard(names);
    RecordsFacts(names, t);
  }

  /** Permutations of a list with distinct team names keep distinct team names. */
  lemma PermutationDistinctNames(s: seq<TeamStanding>, t: seq<TeamStanding>)
    requires DistinctNames(t) && NoDup(t) && multiset(s) == multiset(t)
    ensures DistinctNames(s) && forall x :: x in s ==> x in t
  {
    PermutationNoDup(s, t);
    forall x | x in s
      ensures x in t
    {
      assert x in multiset(s);
    }
    forall i, j | 0 <= i < j < |s|
      ensures s[i].teamName != s[j].teamName
    {
      if s[i].teamName == s[j].teamName {
        SameNameSameTeam(t, s[i], s[j]);
      }
    }
  }

  /** The zeroed table of the discovered teams covers every match, and the table is its aggregate. */
  lemma InitialCovers(ms: seq<Match>)
    requires AllWellFormed(ms)
    ensures CoversAll(Initial(Discover(ms)), ms)
    ensures Table(ms) == Aggregate(Initial(Discover(ms)), ms)
  {
    DiscoverCovers(ms);
  }

  /** Discovering one more match notes its home team, then its away team. */
  lemma DiscoverStep(ms: seq<Match>, i: int)
    requires 0 <= i < |ms|
    ensures Discover(ms[..i + 1]) == Note(Note(Discover(ms[..i]), ms[i].homeTeam), ms[i].awayTeam)
  {
    assert ms[..i + 1][..i] == ms[..i];
  }

  /** A zeroed table gains one zeroed record when one name is added. */
  lemma InitialSnoc(names: seq<string>, n: string)
    ensures Initial(names + [n]) == Initial(names)[n := Zeroed(n)]
  {
  }

  /** Folding in one more match of `ms` applies that match. */
  lemma AggregateStep(t: map<string, TeamStanding>, ms: seq<Match>, i: int)
    requires 0 <= i < |ms| && AllWellFormed(ms[..i + 1]) && CoversAll(t, ms[..i + 1])
    ensures AllWellFormed(ms[..i]) && CoversAll(t, ms[..i])
    ensures WellFormed(ms[i]) && Covers(t, ms[i])
    ensures Aggregate(t, ms[..i + 1]) == ApplyMatch(Aggregate(t, ms[..i]), ms[i])
  {
    assert ms[..i + 1] == ms[..i] + [ms[i]];
    AggregateSnoc(t, ms[..i], ms[i]);
  }

  /** A list holding the record of each name, in order, is `Records`. */
  lemma RecordsExt(names: seq<string>, t: map<string, TeamStanding>, s: seq<TeamStanding>)
    requires forall n :: n in names ==> n in t
    requires |s| == |names| && forall k :: 0 <= k < |s| ==> s[k] == t[names[k]]
    ensures s == Records(names, t)
  {
  }

  /** The team list, sorted by the comparator, is a leaderboard. */
  lemma SortedTeamList(ms: seq<Match>, unsorted: seq<TeamStanding>, board: seq<TeamStanding>)
    requires AllWellFormed(ms)
    requires unsorted == TeamList(ms)
    requires multiset(board) == multiset(unsorted) && Sorted(unsorted, board)
    ensures IsLeaderboard(ms, board)
  {
  }

  /**
   A permutation `board` of a list `rs` that holds one record of `t` per name
   of `teams` holds one record of `t` per name of `teams` too.
   */
  lemma BoardFacts(board: seq<TeamStanding>, rs: seq<TeamStanding>, teams: set<string>, t: map<string, TeamStanding>)
    requires multiset(board) == multiset(rs)
    requires Keyed(t) && DistinctNames(rs) && NoDup(rs) && |rs| == |teams|
    requires forall r :: r in rs ==> r.teamName in teams && r.teamName in t && r == t[r.teamName]
    requires forall n :: n in teams ==> n in t && t[n] in rs
    ensures |board| == |teams|
    ensures DistinctNames(board)
    ensures (set r | r in board :: r.teamName) == teams
    ensures forall r :: r in board ==> r.teamName in t && r == t[r.teamName]
  {
    PermutationDistinctNames(board, rs);
    assert |board| == |multiset(board)| == |multiset(rs)| == |rs|;
    forall n | n in teams
      ensures n in (set r | r in board :: r.teamName)
    {
      var r := t[n];
      assert r in multiset(rs);
      assert r in board;
    }
  }

  /**
   A leaderboard has exactly one record per team that occurs as home or away
   side in any match, played or not, and each record is that team's aggregate.
   */
  lemma OneRecordPerTeam(ms: seq<Match>, board: seq<TeamStanding>)
    requires AllWellFormed(ms) && IsLeaderboard(ms, board)
    ensures |board| == |TeamsOf(ms)|
    ensures DistinctNames(board)
    ensures (set r | r in board :: r.teamName) == TeamsOf(ms)
    ensures forall r :: r in board ==> r.teamName in Table(ms) && r == Table(ms)[r.teamName]
  {
    TeamListFacts(ms);
    BoardFacts(board, TeamList(ms), TeamsOf(ms), Table(ms));
  }

  /** A team that has played no match yet has the zeroed record. */
  lemma IdleTeamIsZero(ms: seq<Match>, board: seq<TeamStanding>, r: TeamStanding)
    requires AllWellFormed(ms) && IsLeaderboard(ms, board) && r in board
    requires forall m :: m in ms && m.matchPlayed ==> m.homeTeam != r.teamName && m.awayTeam != r.teamName
    ensures r == Zeroed(r.teamName)
  {
    OneRecordPerTeam(ms, board);
    InitialCovers(ms);
    UntouchedTeam(Initial(Discover(ms)), ms, r.teamName);
  }

  /** Unplayed matches contribute nothing: the records come from the played matches alone. */
  lemma OnlyPlayedMatchesCount(ms: seq<Match>, board: seq<TeamStanding>)
    requires AllWellFormed(ms) && IsLeaderboard(ms, board)
    ensures AllWellFormed(PlayedOnly(ms)) && CoversAll(Initial(Discover(ms)), PlayedOnly(ms))
    ensures forall r :: r in board ==>
      r.teamName in TeamsOf(ms) && r == Aggregate(Initial(Discover(ms)), PlayedOnly(ms))[r.teamName]
  {
    OneRecordPerTeam(ms, board);
    InitialCovers(ms);
    AggregatePlayedOnly(Initial(Discover(ms)), ms);
  }

  /**
   The matches-played column sums to twice the number of played matches, and
   the goals-for column sums to the goals-against column.
   */
  lemma Conservation(ms: seq<Match>, board: seq<TeamStanding>)
    requires AllWellFormed(ms) && IsLeaderboard(ms, board)
    ensures SumOf(board, MatchesPlayed) == 2 * PlayedCount(ms)
    ensures SumOf(board, GoalsFor) == SumOf(board, GoalsAgainst)
  {
    var names := Discover(ms);
    var t0 := Initial(names);
    assert Elements(names) == t0.Keys;
    DiscoverCovers(ms);
    AggregateTotals(names, t0, ms);
    InitialTotals(names, MatchesPlayed);
    InitialTotals(names, GoalsFor);
    InitialTotals(names, GoalsAgainst);
    SumOfPermutation(board, TeamList(ms), MatchesPlayed);
    SumOfPermutation(board, TeamList(ms), GoalsFor);
    SumOfPermutation(board, TeamList(ms), GoalsAgainst);
  }

  /**
   In every record the goal difference is goals for minus goals against, and
   the points are the sum of its head-to-head entries.
   */
  lemma RecordsConsistent(ms: seq<Match>, board: seq<TeamStanding>)
    requires AllWellFormed(ms) && IsLeaderboard(ms, board)
    ensures forall r :: r in board ==>
      r.goalDifference == r.goalsFor - r.goalsAgainst && r.points == MapSum(r.headToHead)
  {
    OneRecordPerTeam(ms, board);
    var t0 := Initial(Discover(ms));
    forall n | n in t0
      ensures Consistent(t0[n])
    {
      assert t0[n] == Zeroed(n);
      assert SumOver(map[], {}) == 0;
    }
    DiscoverCovers(ms);
    AggregateConsistent(t0, ms);
  }

  /** No two teams of a leaderboard compare equal: the comparator is a strict total order on them. */
  lemma LeaderboardStrict(ms: seq<Match>, board: seq<TeamStanding>)
    requires AllWellFormed(ms) && IsLeaderboard(ms, board)
    ensures forall i, j :: 0 <= i < j < |board| ==> Compare(TeamList(ms), board[i], board[j]) < 0
  {
    OneRecordPerTeam(ms, board);
    SortedStrict(TeamList(ms), board);
  }

  /** Permuted match lists have the same table. */
  lemma TablePermutation(ms1: seq<Match>, ms2: seq<Match>)
    requires AllWellFormed(ms1) && AllWellFormed(ms2)
    requires multiset(ms1) == multiset(ms2)
    ensures TeamsOf(ms1) == TeamsOf(ms2)
    ensures Table(ms1) == Table(ms2)
  {
    SameTeams(ms1, ms2);
    var t0 := Initial(Discover(ms1));
    InitialCovers(ms1);
    InitialCovers(ms2);
    AggregatePermutation(t0, ms1, ms2);
  }

  /** Permuted match lists have the same teams, hence the same zeroed table. */
  lemma SameTeams(ms1: seq<Match>, ms2: seq<Match>)
    requires multiset(ms1) == multiset(ms2)
    ensures TeamsOf(ms1) == TeamsOf(ms2)
    ensures Initial(Discover(ms1)) == Initial(Discover(ms2))
  {
    SameMembers(ms1, ms2);
    TeamsOfMembers(ms1);
    TeamsOfMembers(ms2);
    assert TeamsOf(ms1) == TeamsOf(ms2);
    assert Elements(Discover(ms1)) == Elements(Discover(ms2));
    forall n
      ensures n in Discover(ms1) <==> n in Discover(ms2)
    {
      assert n in Discover(ms1) <==> n in Elements(Discover(ms1));
      assert n in Discover(ms2) <==> n in Elements(Discover(ms2));
    }
  }

  /** Two duplicate-free lists that both hold exactly the records of `t` for `teams` are permutations. */
  lemma SameRecordsSameMultiset(l1: seq<TeamStanding>, l2: seq<TeamStanding>, teams: set<string>, t: map<string, TeamStanding>)
    requires NoDup(l1) && NoDup(l2)
    requires forall r :: r in l1 ==> r.teamName in teams && r.teamName in t && r == t[r.teamName]
    requires forall r :: r in l2 ==> r.teamName in teams && r.teamName in t && r == t[r.teamName]
    requires forall n :: n in teams ==> n in t && t[n] in l1 && t[n] in l2
    ensures multiset(l1) == multiset(l2)
  {
    assert Elements(l1) == Elements(l2);
    SameElementsSameMultiset(l1, l2);
  }

  /** Permuted match lists have the same team list up to order. */
  lemma TeamListPermutation(ms1: seq<Match>, ms2: seq<Match>)
    requires AllWellFormed(ms1) && AllWellFormed(ms2)
    requires multiset(ms1) == multiset(ms2)
    ensures multiset(TeamList(ms1)) == multiset(TeamList(ms2))
  {
    TablePermutation(ms1, ms2);
    TeamListFacts(ms1);
    TeamListFacts(ms2);
    SameRecordsSameMultiset(TeamList(ms1), TeamList(ms2), TeamsOf(ms1), Table(ms1));
  }

  /**
   The leaderboard does not depend on the order of the matches: any two
   leaderboards of permutations of the same matches are equal.
   */
  lemma OrderIndependent(ms1: seq<Match>, ms2: seq<Match>, b1: seq<TeamStanding>, b2: seq<TeamStanding>)
    requires AllWellFormed(ms1) && AllWellFormed(ms2)
    requires multiset(ms1) == multiset(ms2)
    requires IsLeaderboard(ms1, b1) && IsLeaderboard(ms2, b2)
    ensures b1 == b2
  {
    var t1, t2 := TeamList(ms1), TeamList(ms2);
    TeamListPermutation(ms1, ms2);
    TeamListFacts(ms1);
    forall i, j | 0 <= i < j < |b2|
      ensures Compare(t1, b2[i], b2[j]) <= 0
    {
      CompareSameContext(t1, t2, b2[i], b2[j]);
    }
    PermutationDistinctNames(b1, t1);
    SortedUnique(t1, b1, b2);
  }

  /** With no matches the leaderboard is empty. */
  lemma EmptyLeague(board: seq<TeamStanding>)
    requires IsLeaderboard([], board)
    ensures board == []
  {
    assert |board| == |multiset(board)| == |multiset(TeamList([]))| == 0;
  }

  /** A worked league of three distinct teams: a beats b 1-0, then b beats c 5-0. */
  function Scenario(a: string, b: string, c: string): seq<Match>
  {
    [Match(0, "", a, b, true, 1, 0), Match(0, "", b, c, true, 5, 0)]
  }

  lemma ScenarioTeams(a: string, b: string, c: string)
    requires a != b && a != c && b != c
    ensures Discover(Scenario(a, b, c)) == [a, b, c]
  {
    var ms := Scenario(a, b, c);
    assert ms[..1] == [ms[0]] && [ms[0]][..0] == [];
    assert Discover([ms[0]]) == [a, b];
  }

  /** The scenario's records: a and b on 3 points, b with the better goal difference. */
  function ScenarioRecords(a: string, b: string, c: string): seq<TeamStanding>
  {
    [TeamStanding(a, 1, 1, 0, 1, 3, map[b := 3]),
     TeamStanding(b, 2, 5, 1, 4, 3, map[a := 0, c := 3]),
     TeamStanding(c, 1, 0, 5, -5, 0, map[b := 0])]
  }

  /** The scenario's table after its first match. */
  function ScenarioHalfway(a: string, b: string, c: string): map<string, TeamStanding>
  {
    map[a := ScenarioRecords(a, b, c)[0], b := TeamStanding(b, 1, 0, 1, -1, 0, map[a := 0]), c := Zeroed(c)]
  }

  /** The scenario's table after all its matches. */
  function ScenarioFinal(a: string, b: string, c: string): map<string, TeamStanding>
  {
    var rs := ScenarioRecords(a, b, c);
    map[a := rs[0], b := rs[1], c := rs[2]]
  }

  lemma ScenarioFirstMatch(a: string, b: string, c: string)
    requires a != b && a != c && b != c
    ensures AllWellFormed(Scenario(a, b, c)) && CoversAll(Initial([a, b, c]), Scenario(a, b, c))
    ensures ApplyMatch(Initial([a, b, c]), Scenario(a, b, c)[0]) == ScenarioHalfway(a, b, c)
  {
    InitialOfThree(a, b, c);
    ScenarioFirstCredits(a, b, c);
    var ms := Scenario(a, b, c);
    assert WellFormed(ms[0]) && WellFormed(ms[1]);
    assert forall m :: m in ms ==> m == ms[0] || m == ms[1];
    var t1 := ApplyMatch(Initial([a, b, c]), ms[0]);
    assert t1.Keys == {a, b, c};
    assert t1[a] == ScenarioRecords(a, b, c)[0];
    assert t1[b] == TeamStanding(b, 1, 0, 1, -1, 0, map[a := 0]);
    assert t1[c] == Zeroed(c);
    MapOfThree(t1, a, b, c);
  }

  lemma ScenarioFirstCredits(a: string, b: string, c: string)
    ensures Credit(Zeroed(a), b, 1, 0) == ScenarioRecords(a, b, c)[0]
    ensures Credit(Zeroed(b), a, 0, 1) == TeamStanding(b, 1, 0, 1, -1, 0, map[a := 0])
  {
    assert AddPoints(map[], b, 3) == map[b := 3];
    assert AddPoints(map[], a, 0) == map[a := 0];
  }

  lemma InitialOfThree(a: string, b: string, c: string)
    ensures Initial([a, b, c]) == map[a := Zeroed(a), b := Zeroed(b), c := Zeroed(c)]
  {
    var t0 := Initial([a, b, c]);
    assert t0.Keys == {a, b, c};
  }

  lemma ScenarioSecondMatch(a: string, b: string, c: string)
    requires a != b && a != c && b != c
    ensures ApplyMatch(ScenarioHalfway(a, b, c), Scenario(a, b, c)[1]) == ScenarioFinal(a, b, c)
  {
    assert AddPoints(map[a := 0], c, 3) == map[a := 0, c := 3];
    assert AddPoints(map[], b, 0) == map[b := 0];
  }

  lemma ScenarioTable(a: string, b: string, c: string)
    requires a != b && a != c && b != c
    ensures AllWellFormed(Scenario(a, b, c))
    ensures Table(Scenario(a, b, c)) == ScenarioFinal(a, b, c)
  {
    var ms := Scenario(a, b, c);
    var t0 := Initial([a, b, c]);
    assert ms == [ms[0]] + [ms[1]];
    assert [ms[0]] == [] + [ms[0]];
    ScenarioFirstMatch(a, b, c);
    AggregateSnoc(t0, [], ms[0]);
    AggregateSnoc(t0, [ms[0]], ms[1]);
    ScenarioSecondMatch(a, b, c);
    ScenarioTeams(a, b, c);
  }

  lemma ScenarioList(a: string, b: string, c: string)
    requires a != b && a != c && b != c
    ensures AllWellFormed(Scenario(a, b, c)) && TeamList(Scenario(a, b, c)) == ScenarioRecords(a, b, c)
  {
    var rs, t := ScenarioRecords(a, b, c), ScenarioFinal(a, b, c);
    assert t[a] == rs[0] && t[b] == rs[1] && t[c] == rs[2];
    assert [rs[0], rs[1], rs[2]] == rs;
    RecordsOfThree(a, b, c, t);
    ScenarioTable(a, b, c);
    ScenarioTeams(a, b, c);
  }

  /** A map with exactly three keys is the display of its three entries. */
  lemma MapOfThree<K, V>(t: map<K, V>, a: K, b: K, c: K)
    requires t.Keys == {a, b, c}
    ensures t == map[a := t[a], b := t[b], c := t[c]]
  {
  }

  lemma RecordsOfThree(a: string, b: string, c: string, t: map<string, TeamStanding>)
    requires a in t && b in t && c in t
    ensures Records([a, b, c], t) == [t[a], t[b], t[c]]
  {
    var rs := Records([a, b, c], t);
    assert |rs| == 3 && rs[0] == t[a] && rs[1] == t[b] && rs[2] == t[c];
  }

  /** a and b are the only two teams on 3 points. */
  lemma ScenarioPointsGroup(a: string, b: string, c: string)
    ensures |WithPoints(ScenarioRecords(a, b, c), 3)| == 2
  {
    var rs := ScenarioRecords(a, b, c);
    assert rs[..2] == [rs[0], rs[1]] && rs[..1] == [rs[0]] && rs[..0] == [];
    assert WithPoints(rs[..1], 3) == [rs[0]];
    assert WithPoints(rs[..2], 3) == [rs[0], rs[1]];
  }

  /** The scenario's records are already in comparator order. */
  lemma ScenarioSorted(a: string, b: string, c: string)
    requires a != b && a != c && b != c
    ensures DistinctNames(ScenarioRecords(a, b, c))
    ensures Sorted(ScenarioRecords(a, b, c), ScenarioRecords(a, b, c))
  {
    var rs := ScenarioRecords(a, b, c);
    ScenarioPointsGroup(a, b, c);
    assert Compare(rs, rs[0], rs[1]) == -3;
    assert Compare(rs, rs[0], rs[2]) < 0 && Compare(rs, rs[1], rs[2]) < 0;
  }

  /**
   When a beats b 1-0 and b then beats c 5-0, a and b are the only two teams
   on 3 points, so their head-to-head result ranks a above b although b has
   the better goal difference; the team names play no part.
   */
  lemma HeadToHeadBeforeGoalDifference(a: string, b: string, c: string, board: seq<TeamStanding>)
    requires a != b && a != c && b != c
    requires AllWellFormed(Scenario(a, b, c)) && IsLeaderboard(Scenario(a, b, c), board)
    ensures |board| == 3
    ensures board[0].teamName == a && board[1].teamName == b && board[2].teamName == c
    ensures board[0].points == board[1].points && board[0].goalDifference < board[1].goalDifference
  {
    ScenarioList(a, b, c);
    ScenarioSorted(a, b, c);
    var rs := ScenarioRecords(a, b, c);
    SortedUnique(rs, rs, board);
  }
}
