/**
 What folding matches into the table preserves: each record's goal difference
 and its points as the sum of its head-to-head entries, the league-wide totals,
 growth of every counter, independence of the match order, and indifference
 to unplayed matches.
 */
module Aggregation {
  import opened SeqFacts
  import opened Fixtures
  import opened Standings

  // ---------------------------------------------------------------------------
  // Head-to-head maps

  /** The sum of the entries of `h` for the opponents in `keys`. */
  ghost function SumOver(h: map<string, nat>, keys: set<string>): int
    requires keys <= h.Keys
    decreases keys
  {
    if keys == {} then 0
    else
      var k :| k in keys;
      h[k] + SumOver(h, keys - {k})
  }

  /** The sum of all head-to-head entries of a map. */
  ghost function MapSum(h: map<string, nat>): int
  {
    SumOver(h, h.Keys)
  }

  /** The sum can be taken starting from any entry. */
  lemma {:induction false} SumOverRemove(h: map<string, nat>, keys: set<string>, k: string)
    requires keys <= h.Keys && k in keys
    ensures SumOver(h, keys) == h[k] + SumOver(h, keys - {k})
    decreases keys
  {
    var j :| j in keys && SumOver(h, keys) == h[j] + SumOver(h, keys - {j});
    if j != k {
      SumOverRemove(h, keys - {j}, k);
      SumOverRemove(h, keys - {k}, j);
      assert keys - {j} - {k} == keys - {k} - {j};
    }
  }

  /** The sum over `keys` only reads the entries for `keys`. */
  lemma {:induction false} SumOverAgree(h: map<string, nat>, h': map<string, nat>, keys: set<string>)
    requires keys <= h.Keys && keys <= h'.Keys
    requires forall k :: k in keys ==> h[k] == h'[k]
    ensures SumOver(h, keys) == SumOver(h', keys)
    decreases keys
  {
    if keys != {} {
      var k :| k in keys;
      SumOverRemove(h, keys, k);
      SumOverRemove(h', keys, k);
      SumOverAgree(h, h', keys - {k});
    }
  }

  /**
   Earning `p` points against `opponent` creates that entry at 0 if it is
   missing, adds `p` to it, and leaves every other entry alone; no entry
   decreases, and the sum of the entries grows by exactly `p`.
   */
  lemma AddPointsEffect(h: map<string, nat>, opponent: string, p: nat)
    ensures AddPoints(h, opponent, p).Keys == h.Keys + {opponent}
    ensures AddPoints(h, opponent, p)[opponent] == HeadToHead(h, opponent) + p
    ensures forall o :: o in h && o != opponent ==> AddPoints(h, opponent, p)[o] == h[o]
    ensures forall o :: o in h ==> AddPoints(h, opponent, p)[o] >= h[o]
    ensures MapSum(AddPoints(h, opponent, p)) == MapSum(h) + p
  {
    var h' := AddPoints(h, opponent, p);
    var rest := h.Keys - {opponent};
    SumOverRemove(h', h'.Keys, opponent);
    assert h'.Keys - {opponent} == rest;
    SumOverAgree(h, h', rest);
    if opponent in h {
      SumOverRemove(h, h.Keys, opponent);
    } else {
      assert h.Keys == rest;
    }
  }

  lemma AddPointsCommute(h: map<string, nat>, o1: string, p1: nat, o2: string, p2: nat)
    ensures AddPoints(AddPoints(h, o1, p1), o2, p2) == AddPoints(AddPoints(h, o2, p2), o1, p1)
  {
    var a := AddPoints(AddPoints(h, o1, p1), o2, p2);
    var b := AddPoints(AddPoints(h, o2, p2), o1, p1);
    assert a.Keys == b.Keys;
    forall o | o in a
      ensures a[o] == b[o]
    {
    }
  }

  // ---------------------------------------------------------------------------
  // One match at a time

  /** How match `m` changes the record of team `n`. */
  function Settle(m: Match, n: string, r: TeamStanding): TeamStanding
  {
    if !m.matchPlayed then r
    else if n == m.homeTeam then Credit(r, m.awayTeam, m.homeTeamScore, m.awayTeamScore)
    else if n == m.awayTeam then Credit(r, m.homeTeam, m.awayTeamScore, m.homeTeamScore)
    else r
  }

  /** A record that differs from `r` field by field as a played match credits it is `Credit`'s result. */
  lemma CreditByFields(r: TeamStanding, r': TeamStanding, opponent: string, scored: nat, conceded: nat)
    requires r'.teamName == r.teamName
    requires r'.matchesPlayed == r.matchesPlayed + 1
    requires r'.goalsFor == r.goalsFor + scored && r'.goalsAgainst == r.goalsAgainst + conceded
    requires r'.goalDifference == r'.goalsFor - r'.goalsAgainst
    requires r'.points == r.points + ResultPoints(scored, conceded)
    requires r'.headToHead == AddPoints(r.headToHead, opponent, ResultPoints(scored, conceded))
    ensures r' == Credit(r, opponent, scored, conceded)
  {
  }

  lemma ApplyMatchAt(t: map<string, TeamStanding>, m: Match, n: string)
    requires WellFormed(m) && Covers(t, m) && n in t
    ensures ApplyMatch(t, m)[n] == Settle(m, n, t[n])
  {
  }

  lemma CreditCommutes(r: TeamStanding, o1: string, s1: nat, c1: nat, o2: string, s2: nat, c2: nat)
    ensures Credit(Credit(r, o1, s1, c1), o2, s2, c2) == Credit(Credit(r, o2, s2, c2), o1, s1, c1)
  {
    AddPointsCommute(r.headToHead, o1, ResultPoints(s1, c1), o2, ResultPoints(s2, c2));
  }

  lemma SettleCommutes(a: Match, b: Match, n: string, r: TeamStanding)
    ensures Settle(b, n, Settle(a, n, r)) == Settle(a, n, Settle(b, n, r))
  {
    if a.matchPlayed && b.matchPlayed {
      var oa, sa, ca :=
        if n == a.homeTeam then a.awayTeam else a.homeTeam,
        if n == a.homeTeam then a.homeTeamScore else a.awayTeamScore,
        if n == a.homeTeam then a.awayTeamScore else a.homeTeamScore;
      var ob, sb, cb :=
        if n == b.homeTeam then b.awayTeam else b.homeTeam,
        if n == b.homeTeam then b.homeTeamScore else b.awayTeamScore,
        if n == b.homeTeam then b.awayTeamScore else b.homeTeamScore;
      CreditCommutes(r, oa, sa, ca, ob, sb, cb);
    }
  }

  /** Two matches can be folded in either order. */
  lemma ApplyMatchCommutes(t: map<string, TeamStanding>, a: Match, b: Match)
    requires WellFormed(a) && Covers(t, a) && WellFormed(b) && Covers(t, b)
    ensures ApplyMatch(ApplyMatch(t, a), b) == ApplyMatch(ApplyMatch(t, b), a)
  {
    var ta, tb := ApplyMatch(t, a), ApplyMatch(t, b);
    var l, r := ApplyMatch(ta, b), ApplyMatch(tb, a);
    forall n | n in t
      ensures l[n] == r[n]
    {
      ApplyMatchAt(t, a, n);
      ApplyMatchAt(ta, b, n);
      ApplyMatchAt(t, b, n);
      ApplyMatchAt(tb, a, n);
      SettleCommutes(a, b, n, t[n]);
    }
    assert l.Keys == r.Keys;
  }

  // ---------------------------------------------------------------------------
  // Folding a sequence of matches

  lemma AggregateSnoc(t: map<string, TeamStanding>, ms: seq<Match>, m: Match)
    requires AllWellFormed(ms + [m]) && CoversAll(t, ms + [m])
    ensures AllWellFormed(ms) && CoversAll(t, ms)
    ensures WellFormed(m) && Covers(t, m)
    ensures Aggregate(t, ms + [m]) == ApplyMatch(Aggregate(t, ms), m)
  {
    assert m in ms + [m];
    assert forall x :: x in ms ==> x in ms + [m];
    assert (ms + [m])[..|ms|] == ms;
  }

  /** A match can be moved to the end of the fold without changing the table. */
  lemma {:induction false} AggregateMoveToEnd(t: map<string, TeamStanding>, pre: seq<Match>, x: Match, post: seq<Match>)
    requires AllWellFormed(pre + [x] + post) && CoversAll(t, pre + [x] + post)
    ensures AllWellFormed(pre + post + [x]) && CoversAll(t, pre + post + [x])
    ensures Aggregate(t, pre + [x] + post) == Aggregate(t, pre + post + [x])
    decreases |post|
  {
    assert forall m :: m in pre + [x] + post <==> m in pre + post + [x];
    if post == [] {
      assert pre + [x] + post == pre + post + [x];
    } else {
      var post', y := post[..|post| - 1], post[|post| - 1];
      assert pre + [x] + post == (pre + [x] + post') + [y];
      assert pre + post + [x] == ((pre + post') + [y]) + [x];
      assert forall m :: m in pre + [x] + post' ==> m in pre + [x] + post;
      AggregateSnoc(t, pre + [x] + post', y);
      AggregateMoveToEnd(t, pre, x, post');
      AggregateSnoc(t, pre + post' + [x], y);
      AggregateSnoc(t, pre + post', x);
      AggregateSnoc(t, (pre + post') + [y], x);
      AggregateSnoc(t, pre + post', y);
      var base := Aggregate(t, pre + post');
      ApplyMatchCommutes(base, x, y);
    }
  }

  /** The table does not depend on the order of the matches. */
  lemma {:induction false} AggregatePermutation(t: map<string, TeamStanding>, s1: seq<Match>, s2: seq<Match>)
    requires multiset(s1) == multiset(s2)
    requires AllWellFormed(s1) && CoversAll(t, s1)
    ensures AllWellFormed(s2) && CoversAll(t, s2)
    ensures Aggregate(t, s1) == Aggregate(t, s2)
    decreases |s1|
  {
    SameMembers(s1, s2);
    if s1 != [] {
      var init, x := s1[..|s1| - 1], s1[|s1| - 1];
      assert s1 == init + [x];
      var k := PermutationLast(s1, s2);
      var rest := s2[..k] + s2[k + 1..];
      assert s2 == s2[..k] + [x] + s2[k + 1..];
      AggregateSnoc(t, init, x);
      AggregatePermutation(t, init, rest);
      AggregateMoveToEnd(t, s2[..k], x, s2[k + 1..]);
      AggregateSnoc(t, rest, x);
    }
  }

  /** Unplayed matches contribute nothing: only the played ones decide the table. */
  lemma {:induction false} AggregatePlayedOnly(t: map<string, TeamStanding>, ms: seq<Match>)
    requires AllWellFormed(ms) && CoversAll(t, ms)
    ensures AllWellFormed(PlayedOnly(ms)) && CoversAll(t, PlayedOnly(ms))
    ensures Aggregate(t, ms) == Aggregate(t, PlayedOnly(ms))
    decreases |ms|
  {
    if ms != [] {
      var init, m := ms[..|ms| - 1], ms[|ms| - 1];
      assert ms == init + [m];
      AggregateSnoc(t, init, m);
      AggregatePlayedOnly(t, init);
      if m.matchPlayed {
        AggregateSnoc(t, PlayedOnly(init), m);
      } else {
        assert PlayedOnly(ms) == PlayedOnly(init);
      }
    }
  }

  /** A team that took part in no played match keeps the record it started with. */
  lemma {:induction false} UntouchedTeam(t: map<string, TeamStanding>, ms: seq<Match>, n: string)
    requires AllWellFormed(ms) && CoversAll(t, ms) && n in t
    requires forall m :: m in ms && m.matchPlayed ==> m.homeTeam != n && m.awayTeam != n
    ensures Aggregate(t, ms)[n] == t[n]
    decreases |ms|
  {
    if ms != [] {
      var init, m := ms[..|ms| - 1], ms[|ms| - 1];
      assert ms == init + [m];
      AggregateSnoc(t, init, m);
      UntouchedTeam(t, init, n);
      ApplyMatchAt(Aggregate(t, init), m, n);
    }
  }

  // ---------------------------------------------------------------------------
  // Per-record invariants and growth

  /**
   A record's derived fields agree with its counters: the goal difference is
   goals for minus goals against, and the points are the sum of its
   head-to-head entries.
   */
  ghost predicate Consistent(r: TeamStanding)
  {
    r.goalDifference == r.goalsFor - r.goalsAgainst && r.points == MapSum(r.headToHead)
  }

  ghost predicate AllConsistent(t: map<string, TeamStanding>)
  {
    forall n :: n in t ==> Consistent(t[n])
  }

  lemma CreditConsistent(r: TeamStanding, opponent: string, scored: nat, conceded: nat)
    requires Consistent(r)
    ensures Consistent(Credit(r, opponent, scored, conceded))
  {
    AddPointsEffect(r.headToHead, opponent, ResultPoints(scored, conceded));
  }

  /** Folding in matches keeps every record consistent. */
  lemma {:induction false} AggregateConsistent(t: map<string, TeamStanding>, ms: seq<Match>)
    requires AllWellFormed(ms) && CoversAll(t, ms)
    requires AllConsistent(t)
    ensures AllConsistent(Aggregate(t, ms))
    decreases |ms|
  {
    if ms != [] {
      var init, m := ms[..|ms| - 1], ms[|ms| - 1];
      assert ms == init + [m];
      AggregateSnoc(t, init, m);
      AggregateConsistent(t, init);
      var a := Aggregate(t, init);
      forall n | n in a
        ensures Consistent(ApplyMatch(a, m)[n])
      {
        ApplyMatchAt(a, m, n);
        if m.matchPlayed && n == m.homeTeam {
          CreditConsistent(a[n], m.awayTeam, m.homeTeamScore, m.awayTeamScore);
        } else if m.matchPlayed && n == m.awayTeam {
          CreditConsistent(a[n], m.homeTeam, m.awayTeamScore, m.homeTeamScore);
        }
      }
    }
  }

  /**
   `r'` is a later state of record `r`: the same team, no counter lower, every
   head-to-head entry still there and no lower.
   */
  predicate Grows(r: TeamStanding, r': TeamStanding)
  {
    && r'.teamName == r.teamName
    && r'.matchesPlayed >= r.matchesPlayed
    && r'.goalsFor >= r.goalsFor
    && r'.goalsAgainst >= r.goalsAgainst
    && r'.points >= r.points
    && (forall o :: o in r.headToHead ==> o in r'.headToHead && r'.headToHead[o] >= r.headToHead[o])
  }

  /** Counters and head-to-head entries never decrease as matches are folded in. */
  lemma {:induction false} AggregateGrows(t: map<string, TeamStanding>, ms: seq<Match>, n: string)
    requires AllWellFormed(ms) && CoversAll(t, ms) && n in t
    ensures Grows(t[n], Aggregate(t, ms)[n])
    decreases |ms|
  {
    if ms != [] {
      var init, m := ms[..|ms| - 1], ms[|ms| - 1];
      assert ms == init + [m];
      AggregateSnoc(t, init, m);
      AggregateGrows(t, init, n);
      var a := Aggregate(t, init);
      ApplyMatchAt(a, m, n);
      if m.matchPlayed && n == m.homeTeam {
        AddPointsEffect(a[n].headToHead, m.awayTeam, ResultPoints(m.homeTeamScore, m.awayTeamScore));
      } else if m.matchPlayed && n == m.awayTeam {
        AddPointsEffect(a[n].headToHead, m.homeTeam, ResultPoints(m.awayTeamScore, m.homeTeamScore));
      }
    }
  }

  // ---------------------------------------------------------------------------
  // League-wide totals

  /** The sum of `f` over a list of records. */
  function SumOf(rs: seq<TeamStanding>, f: TeamStanding -> int): int
  {
    if rs == [] then 0 else SumOf(rs[..|rs| - 1], f) + f(rs[|rs| - 1])
  }

  function MatchesPlayed(r: TeamStanding): int { r.matchesPlayed }
  function GoalsFor(r: TeamStanding): int { r.goalsFor }
  function GoalsAgainst(r: TeamStanding): int { r.goalsAgainst }

  lemma {:induction false} SumOfConcat(a: seq<TeamStanding>, b: seq<TeamStanding>, f: TeamStanding -> int)
    ensures SumOf(a + b, f) == SumOf(a, f) + SumOf(b, f)
    decreases |b|
  {
    if b != [] {
      var init := b[..|b| - 1];
      assert (a + b)[..|a + b| - 1] == a + init;
      SumOfConcat(a, init, f);
    } else {
      assert a + b == a;
    }
  }

  lemma SumOfRemoveAt(t: seq<TeamStanding>, k: int, f: TeamStanding -> int)
    requires 0 <= k < |t|
    ensures SumOf(t, f) == SumOf(t[..k] + t[k + 1..], f) + f(t[k])
  {
    var pre, x, post := t[..k], t[k], t[k + 1..];
    assert t == pre + ([x] + post);
    SumOfInsert(pre, x, post, f);
  }

  lemma SumOfInsert(pre: seq<TeamStanding>, x: TeamStanding, post: seq<TeamStanding>, f: TeamStanding -> int)
    ensures SumOf(pre + ([x] + post), f) == SumOf(pre + post, f) + f(x)
  {
    SumOfConcat(pre, [x] + post, f);
    SumOfConcat([x], post, f);
    SumOfSingle(x, f);
    SumOfConcat(pre, post, f);
  }

  lemma SumOfSingle(x: TeamStanding, f: TeamStanding -> int)
    ensures SumOf([x], f) == f(x)
  {
    assert [x][..0] == [];
  }

  /** A sum over records does not depend on their order. */
  lemma {:induction false} SumOfPermutation(s: seq<TeamStanding>, t: seq<TeamStanding>, f: TeamStanding -> int)
    requires multiset(s) == multiset(t)
    ensures SumOf(s, f) == SumOf(t, f)
    decreases |s|
  {
    if s == [] {
      assert |t| == |multiset(t)| == 0;
    } else {
      var k := PermutationLast(s, t);
      SumOfPermutation(s[..|s| - 1], t[..k] + t[k + 1..], f);
      SumOfRemoveAt(t, k, f);
    }
  }

  lemma RecordsUnchanged(names: seq<string>, t: map<string, TeamStanding>, n: string, v: TeamStanding)
    requires forall k :: k in names ==> k in t
    requires n !in names
    ensures Records(names, t[n := v]) == Records(names, t)
  {
  }

  /** Appending a record adds its value to a sum. */
  lemma SumOfSnoc(rs: seq<TeamStanding>, x: TeamStanding, f: TeamStanding -> int)
    ensures SumOf(rs + [x], f) == SumOf(rs, f) + f(x)
  {
    assert (rs + [x])[..|rs|] == rs;
  }

  /** The records for `names` with one more name appended. */
  lemma RecordsSnoc(names: seq<string>, t: map<string, TeamStanding>)
    requires names != [] && forall k :: k in names ==> k in t
    ensures Records(names, t) == Records(names[..|names| - 1], t) + [t[names[|names| - 1]]]
  {
  }

  /** Replacing one team's record changes a sum by the difference of the two records. */
  lemma {:induction false} RecordsUpdate(names: seq<string>, t: map<string, TeamStanding>, n: string, v: TeamStanding, f: TeamStanding -> int)
    requires forall k :: k in names ==> k in t
    requires NoDup(names) && n in names
    ensures SumOf(Records(names, t[n := v]), f) == SumOf(Records(names, t), f) - f(t[n]) + f(v)
    decreases |names|
  {
    var init, last, t' := names[..|names| - 1], names[|names| - 1], t[n := v];
    assert names == init + [last];
    assert NoDup(init);
    RecordsSnoc(names, t);
    RecordsSnoc(names, t');
    SumOfSnoc(Records(init, t), t[last], f);
    SumOfSnoc(Records(init, t'), t'[last], f);
    if last == n {
      assert n !in init;
      RecordsUnchanged(init, t, n, v);
    } else {
      RecordsUpdate(init, t, n, v, f);
    }
  }

  /**
   Each played match adds one to the matches played of exactly two teams, and
   adds its total goals both to the goals scored and to the goals conceded.
   */
  lemma {:induction false} AggregateTotals(names: seq<string>, t: map<string, TeamStanding>, ms: seq<Match>)
    requires NoDup(names) && Elements(names) == t.Keys
    requires AllWellFormed(ms) && CoversAll(t, ms)
    ensures SumOf(Records(names, Aggregate(t, ms)), MatchesPlayed)
         == SumOf(Records(names, t), MatchesPlayed) + 2 * PlayedCount(ms)
    ensures SumOf(Records(names, Aggregate(t, ms)), GoalsFor) - SumOf(Records(names, Aggregate(t, ms)), GoalsAgainst)
         == SumOf(Records(names, t), GoalsFor) - SumOf(Records(names, t), GoalsAgainst)
    decreases |ms|
  {
    if ms != [] {
      var init, m := ms[..|ms| - 1], ms[|ms| - 1];
      assert ms == init + [m];
      AggregateSnoc(t, init, m);
      AggregateTotals(names, t, init);
      ApplyMatchTotals(names, Aggregate(t, init), m);
    }
  }

  /** One match adds 2 to the matches played when it was played, and as many goals for as against. */
  lemma ApplyMatchTotals(names: seq<string>, a: map<string, TeamStanding>, m: Match)
    requires NoDup(names) && Elements(names) == a.Keys
    requires WellFormed(m) && Covers(a, m)
    ensures SumOf(Records(names, ApplyMatch(a, m)), MatchesPlayed)
         == SumOf(Records(names, a), MatchesPlayed) + (if m.matchPlayed then 2 else 0)
    ensures SumOf(Records(names, ApplyMatch(a, m)), GoalsFor) - SumOf(Records(names, ApplyMatch(a, m)), GoalsAgainst)
         == SumOf(Records(names, a), GoalsFor) - SumOf(Records(names, a), GoalsAgainst)
  {
    if m.matchPlayed {
      var home := Credit(a[m.homeTeam], m.awayTeam, m.homeTeamScore, m.awayTeamScore);
      var away := Credit(a[m.awayTeam], m.homeTeam, m.awayTeamScore, m.homeTeamScore);
      var a1 := a[m.homeTeam := home];
      assert a1[m.awayTeam] == a[m.awayTeam];
      assert m.homeTeam in Elements(names) && m.awayTeam in Elements(names);
      RecordsUpdate(names, a, m.homeTeam, home, MatchesPlayed);
      RecordsUpdate(names, a1, m.awayTeam, away, MatchesPlayed);
      RecordsUpdate(names, a, m.homeTeam, home, GoalsFor);
      RecordsUpdate(names, a1, m.awayTeam, away, GoalsFor);
      RecordsUpdate(names, a, m.homeTeam, home, GoalsAgainst);
      RecordsUpdate(names, a1, m.awayTeam, away, GoalsAgainst);
    }
  }

  /** A list of zeroed records sums to zero. */
  lemma {:induction false} InitialTotals(names: seq<string>, f: TeamStanding -> int)
    requires forall n :: f(Zeroed(n)) == 0
    ensures SumOf(Records(names, Initial(names)), f) == 0
    decreases |names|
  {
    if names != [] {
      var init := names[..|names| - 1];
      var t := Initial(names);
      assert Records(names, t) == Records(init, t) + [t[names[|names| - 1]]];
      SumOfConcat(Records(init, t), [t[names[|names| - 1]]], f);
      assert Records(init, t) == Records(init, Initial(init));
      InitialTotals(init, f);
      assert [t[names[|names| - 1]]][..0] == [];
    }
  }
}
