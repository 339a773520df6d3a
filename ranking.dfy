/**
 The comparator that orders the standings, and what being sorted by it means.
 `Compare` follows the comparator chain of `sortTeams`: points, then
 head-to-head points when exactly two teams share that points total, then goal
 difference, goals scored, and finally the team name.
 */
module Ranking {
  import opened SeqFacts
  import opened TeamNames
  import opened Standings

  /** The teams of `teams` that have `p` points, in order. */
  function WithPoints(teams: seq<TeamStanding>, p: int): (r: seq<TeamStanding>)
    ensures |r| <= |teams|
    ensures forall x :: x in r <==> x in teams && x.points == p
  {
    if teams == [] then []
    else
      var init, last := teams[..|teams| - 1], teams[|teams| - 1];
      assert teams == init + [last];
      WithPoints(init, p) + (if last.points == p then [last] else [])
  }

  /**
   The comparator, evaluated against the list `teams` being sorted: negative
   when `a` ranks above `b`, positive when `b` ranks above `a`.
   */
  function Compare(teams: seq<TeamStanding>, a: TeamStanding, b: TeamStanding): int
  {
    var h2hA, h2hB := HeadToHead(a.headToHead, b.teamName), HeadToHead(b.headToHead, a.teamName);
    if b.points != a.points then b.points - a.points
    else if |WithPoints(teams, a.points)| == 2 && h2hA != h2hB then h2hB - h2hA
    else if b.goalDifference != a.goalDifference then b.goalDifference - a.goalDifference
    else if b.goalsFor != a.goalsFor then b.goalsFor - a.goalsFor
    else NameCompare(a.teamName, b.teamName)
  }

  /** `s` is ordered by the comparator evaluated against `teams`. */
  predicate Sorted(teams: seq<TeamStanding>, s: seq<TeamStanding>)
  {
    forall i, j :: 0 <= i < j < |s| ==> Compare(teams, s[i], s[j]) <= 0
  }

  /** Swapping the two teams negates the comparison. */
  lemma CompareAntisymmetric(teams: seq<TeamStanding>, a: TeamStanding, b: TeamStanding)
    ensures Compare(teams, b, a) == -Compare(teams, a, b)
  {
    NameCompareAntisymmetric(a.teamName, b.teamName);
  }

  /** Only two records with the same team name compare equal. */
  lemma CompareZero(teams: seq<TeamStanding>, a: TeamStanding, b: TeamStanding)
    ensures Compare(teams, a, b) == 0 ==> a.teamName == b.teamName
    ensures Compare(teams, a, a) == 0
  {
    NameCompareZero(a.teamName, b.teamName);
    NameCompareZero(a.teamName, a.teamName);
  }

  /** Three different teams on the same points make a points group of at least three. */
  lemma WithPointsAtLeastThree(teams: seq<TeamStanding>, a: TeamStanding, b: TeamStanding, c: TeamStanding)
    requires a in teams && b in teams && c in teams
    requires a != b && b != c && a != c
    requires a.points == b.points == c.points
    ensures |WithPoints(teams, a.points)| >= 3
  {
    var group := WithPoints(teams, a.points);
    assert a in group && b in group && c in group;
    var i :| 0 <= i < |group| && group[i] == a;
    var j :| 0 <= j < |group| && group[j] == b;
    var k :| 0 <= k < |group| && group[k] == c;
    assert i != j && j != k && i != k;
  }

  /**
   "Ranks no lower than" is transitive among the teams being sorted. Within a
   points total the head-to-head step only applies to a group of two, so three
   different teams on the same points are ordered by the remaining criteria.
   */
  lemma CompareTransitive(teams: seq<TeamStanding>, a: TeamStanding, b: TeamStanding, c: TeamStanding)
    requires a in teams && b in teams && c in teams
    requires Compare(teams, a, b) <= 0 && Compare(teams, b, c) <= 0
    ensures Compare(teams, a, c) <= 0
  {
    if a == c {
      CompareZero(teams, a, a);
    } else if a.points == b.points == c.points && a != b && b != c {
      WithPointsAtLeastThree(teams, a, b, c);
      if a.goalDifference == b.goalDifference == c.goalDifference && a.goalsFor == b.goalsFor == c.goalsFor {
        NameCompareTransitive(a.teamName, b.teamName, c.teamName);
      }
    }
  }

  lemma {:induction false} WithPointsConcat(s: seq<TeamStanding>, t: seq<TeamStanding>, p: int)
    ensures WithPoints(s + t, p) == WithPoints(s, p) + WithPoints(t, p)
    decreases |t|
  {
    if t == [] {
      assert s + t == s;
    } else {
      var init := t[..|t| - 1];
      assert (s + t)[..|s + t| - 1] == s + init;
      WithPointsConcat(s, init, p);
    }
  }

  /** The size of a points group does not depend on the order of the list. */
  lemma {:induction false} WithPointsPermutation(s: seq<TeamStanding>, t: seq<TeamStanding>, p: int)
    requires multiset(s) == multiset(t)
    ensures |WithPoints(s, p)| == |WithPoints(t, p)|
    decreases |s|
  {
    if s == [] {
      assert |t| == |multiset(t)| == 0;
    } else {
      var init, x := s[..|s| - 1], s[|s| - 1];
      var k := PermutationLast(s, t);
      WithPointsPermutation(init, t[..k] + t[k + 1..], p);
      WithPointsRemoveAt(t, k, p);
      WithPointsSnoc(init, x, p);
      assert s == init + [x];
    }
  }

  lemma WithPointsRemoveAt(t: seq<TeamStanding>, k: int, p: int)
    requires 0 <= k < |t|
    ensures |WithPoints(t, p)| == |WithPoints(t[..k] + t[k + 1..], p)| + (if t[k].points == p then 1 else 0)
  {
    var pre, x, post := t[..k], t[k], t[k + 1..];
    assert t == pre + ([x] + post);
    WithPointsInsert(pre, x, post, p);
  }

  lemma WithPointsInsert(pre: seq<TeamStanding>, x: TeamStanding, post: seq<TeamStanding>, p: int)
    ensures |WithPoints(pre + ([x] + post), p)| == |WithPoints(pre + post, p)| + (if x.points == p then 1 else 0)
  {
    WithPointsConcat(pre, [x] + post, p);
    WithPointsConcat([x], post, p);
    WithPointsConcat(pre, post, p);
    assert [x][..0] == [];
  }

  lemma WithPointsSnoc(s: seq<TeamStanding>, x: TeamStanding, p: int)
    ensures |WithPoints(s + [x], p)| == |WithPoints(s, p)| + (if x.points == p then 1 else 0)
  {
    WithPointsConcat(s, [x], p);
    assert [x][..0] == [];
  }

  /** The comparator gives the same answer against any permutation of the list. */
  lemma CompareSameContext(t1: seq<TeamStanding>, t2: seq<TeamStanding>, a: TeamStanding, b: TeamStanding)
    requires multiset(t1) == multiset(t2)
    ensures Compare(t1, a, b) == Compare(t2, a, b)
  {
    WithPointsPermutation(t1, t2, a.points);
  }

  /** In a list with distinct team names, a record is determined by its name. */
  lemma SameNameSameTeam(teams: seq<TeamStanding>, a: TeamStanding, b: TeamStanding)
    requires DistinctNames(teams) && a in teams && b in teams
    requires a.teamName == b.teamName
    ensures a == b
  {
  }

  /** Two sorted orderings of the same teams start with the same team. */
  lemma SortedFirstAgree(teams: seq<TeamStanding>, s1: seq<TeamStanding>, s2: seq<TeamStanding>)
    requires DistinctNames(teams)
    requires forall x :: x in s1 ==> x in teams
    requires multiset(s1) == multiset(s2) && s1 != []
    requires Sorted(teams, s1) && Sorted(teams, s2)
    ensures s2 != [] && s1[0] == s2[0]
  {
    assert |s2| == |multiset(s2)| == |multiset(s1)| == |s1|;
    var x, y := s1[0], s2[0];
    assert y in multiset(s1) && x in multiset(s2);
    if x != y {
      var k :| 0 <= k < |s1| && s1[k] == y;
      var l :| 0 <= l < |s2| && s2[l] == x;
      assert Compare(teams, x, y) <= 0 && Compare(teams, y, x) <= 0;
      CompareAntisymmetric(teams, x, y);
      CompareZero(teams, x, y);
      SameNameSameTeam(teams, x, y);
    }
  }

  lemma DropFirst(s1: seq<TeamStanding>, s2: seq<TeamStanding>)
    requires multiset(s1) == multiset(s2) && s1 != [] && s2 != [] && s1[0] == s2[0]
    ensures multiset(s1[1..]) == multiset(s2[1..])
  {
    assert s1 == [s1[0]] + s1[1..] && s2 == [s2[0]] + s2[1..];
    assert multiset(s1[1..]) == multiset(s1) - multiset{s1[0]};
    assert multiset(s2[1..]) == multiset(s2) - multiset{s2[0]};
  }

  /**
   Sorting is deterministic: two orderings of the same teams that are both
   sorted are the same ordering, when the teams have distinct names.
   */
  lemma {:induction false} SortedUnique(teams: seq<TeamStanding>, s1: seq<TeamStanding>, s2: seq<TeamStanding>)
    requires DistinctNames(teams)
    requires forall x :: x in s1 ==> x in teams
    requires multiset(s1) == multiset(s2)
    requires Sorted(teams, s1) && Sorted(teams, s2)
    ensures s1 == s2
    decreases |s1|
  {
    if s1 == [] {
      assert |s2| == |multiset(s2)| == 0;
    } else {
      SortedFirstAgree(teams, s1, s2);
      DropFirst(s1, s2);
      SortedUnique(teams, s1[1..], s2[1..]);
      assert s1 == [s1[0]] + s1[1..] && s2 == [s2[0]] + s2[1..];
    }
  }

  /** In a sorted list with distinct names no two teams compare equal. */
  lemma SortedStrict(teams: seq<TeamStanding>, s: seq<TeamStanding>)
    requires Sorted(teams, s) && DistinctNames(s)
    ensures forall i, j :: 0 <= i < j < |s| ==> Compare(teams, s[i], s[j]) < 0
  {
    forall i, j | 0 <= i < j < |s|
      ensures Compare(teams, s[i], s[j]) < 0
    {
      CompareZero(teams, s[i], s[j]);
    }
  }

  /**
   What a sorted table looks like, for any two positions `i < j`: points do not
   increase; within a points total shared by exactly two teams, the team with
   more head-to-head points against the other is above; otherwise within a
   points total the goal difference does not increase, then the goals scored,
   and with all of those equal the names are in lexicographic order.
   */
  lemma SortedOrder(teams: seq<TeamStanding>, s: seq<TeamStanding>, i: int, j: int)
    requires Sorted(teams, s) && 0 <= i < j < |s|
    ensures s[i].points >= s[j].points
    ensures s[i].points == s[j].points && |WithPoints(teams, s[i].points)| == 2 ==>
      HeadToHead(s[i].headToHead, s[j].teamName) >= HeadToHead(s[j].headToHead, s[i].teamName)
    ensures (s[i].points == s[j].points &&
      (|WithPoints(teams, s[i].points)| != 2 ||
       HeadToHead(s[i].headToHead, s[j].teamName) == HeadToHead(s[j].headToHead, s[i].teamName))) ==>
      && s[i].goalDifference >= s[j].goalDifference
      && (s[i].goalDifference == s[j].goalDifference ==> s[i].goalsFor >= s[j].goalsFor)
      && (s[i].goalDifference == s[j].goalDifference && s[i].goalsFor == s[j].goalsFor ==>
            NameCompare(s[i].teamName, s[j].teamName) <= 0)
  {
  }

  /** The first `n` records of `s` are in comparator order. */
  predicate SortedPrefix(teams: seq<TeamStanding>, s: seq<TeamStanding>, n: int)
    requires 0 <= n <= |s|
  {
    forall p, q :: 0 <= p < q < n ==> Compare(teams, s[p], s[q]) <= 0
  }

  /**
   Midway through inserting `s[j]` into the sorted prefix `s[..i + 1]`: every
   pair of that prefix is in order except pairs ending at `j`, and `s[j]`
   precedes everything after it up to `i`.
   */
  predicate Inserting(teams: seq<TeamStanding>, s: seq<TeamStanding>, i: int, j: int)
    requires 0 <= j <= i < |s|
  {
    (forall p, q :: 0 <= p < q <= i && q != j ==> Compare(teams, s[p], s[q]) <= 0) &&
    (forall q :: j < q <= i ==> Compare(teams, s[j], s[q]) <= 0)
  }

  /** Insertion starts with `s[i]` after a sorted prefix `s[..i]`. */
  lemma InsertingStart(teams: seq<TeamStanding>, s: seq<TeamStanding>, i: int)
    requires 0 <= i < |s| && SortedPrefix(teams, s, i)
    ensures Inserting(teams, s, i, i)
  {
  }

  /** Exchanging `s[j]` with a predecessor that should follow it moves the insertion one step down. */
  lemma InsertingSwap(teams: seq<TeamStanding>, s: seq<TeamStanding>, i: int, j: int)
    requires 0 < j <= i < |s| && Inserting(teams, s, i, j)
    requires Compare(teams, s[j - 1], s[j]) > 0
    ensures Inserting(teams, Swap(s, j - 1, j), i, j - 1)
  {
    CompareAntisymmetric(teams, s[j - 1], s[j]);
  }

  /**
   Insertion ends when `s[j]` reaches the front or follows its predecessor;
   then `s[..i + 1]` is sorted.
   */
  lemma InsertingDone(teams: seq<TeamStanding>, s: seq<TeamStanding>, i: int, j: int)
    requires 0 <= j <= i < |s| && multiset(s) == multiset(teams)
    requires Inserting(teams, s, i, j)
    requires j == 0 || Compare(teams, s[j - 1], s[j]) <= 0
    ensures SortedPrefix(teams, s, i + 1)
  {
    if 0 < j {
      SortedThrough(teams, s, j);
    }
  }

  /**
   In a permutation `s` of `teams`, if everything before position `j - 1`
   precedes `s[j - 1]` and `s[j - 1]` precedes `s[j]`, everything before `j`
   precedes `s[j]`.
   */
  lemma SortedThrough(teams: seq<TeamStanding>, s: seq<TeamStanding>, j: int)
    requires 0 < j < |s| && multiset(s) == multiset(teams)
    requires forall p :: 0 <= p < j - 1 ==> Compare(teams, s[p], s[j - 1]) <= 0
    requires Compare(teams, s[j - 1], s[j]) <= 0
    ensures forall p :: 0 <= p < j ==> Compare(teams, s[p], s[j]) <= 0
  {
    forall p | 0 <= p < j - 1
      ensures Compare(teams, s[p], s[j]) <= 0
    {
      InPermutation(s, teams, p);
      InPermutation(s, teams, j - 1);
      InPermutation(s, teams, j);
      CompareTransitive(teams, s[p], s[j - 1], s[j]);
    }
  }
}
