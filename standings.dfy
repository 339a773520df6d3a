/**
 The team records of the league table and how played matches are folded into
 them. These functions are the specification that the imperative
 `LeagueService.GetLeaderboard` is proved against.
 */
module Standings {
  import opened SeqFacts
  import opened Fixtures

  /**
   One row of the standings. `headToHead` maps an opponent's name to the points
   this team has earned in its matches against that opponent.
   */
  datatype TeamStanding = TeamStanding(
    teamName: string,
    matchesPlayed: nat,
    goalsFor: nat,
    goalsAgainst: nat,
    goalDifference: int,
    points: nat,
    headToHead: map<string, nat>)

  /** The record a team starts with: every counter zero, no head-to-head entry. */
  function Zeroed(name: string): TeamStanding
  {
    TeamStanding(name, 0, 0, 0, 0, 0, map[])
  }

  /** Head-to-head points against `opponent`; a missing entry reads as 0. */
  function HeadToHead(h: map<string, nat>, opponent: string): nat
  {
    if opponent in h then h[opponent] else 0
  }

  /** The head-to-head map after `p` more points are earned against `opponent`. */
  function AddPoints(h: map<string, nat>, opponent: string, p: nat): map<string, nat>
  {
    h[opponent := HeadToHead(h, opponent) + p]
  }

  /** Points for a side that scored `scored` and conceded `conceded`: win 3, draw 1, loss 0. */
  function ResultPoints(scored: nat, conceded: nat): nat
  {
    if scored > conceded then 3 else if scored == conceded then 1 else 0
  }

  /**
   A team's record after one played match against `opponent` in which it
   scored `scored` and conceded `conceded`.
   */
  function Credit(r: TeamStanding, opponent: string, scored: nat, conceded: nat): TeamStanding
  {
    var p := ResultPoints(scored, conceded);
    r.(matchesPlayed := r.matchesPlayed + 1,
       goalsFor := r.goalsFor + scored,
       goalsAgainst := r.goalsAgainst + conceded,
       goalDifference := (r.goalsFor + scored) - (r.goalsAgainst + conceded),
       points := r.points + p,
       headToHead := AddPoints(r.headToHead, opponent, p))
  }

  /** Every record is stored under its own team name. */
  predicate Keyed(t: map<string, TeamStanding>)
  {
    forall n :: n in t ==> t[n].teamName == n
  }

  /** Both sides of `m` have a record in `t`. */
  predicate Covers(t: map<string, TeamStanding>, m: Match)
  {
    m.homeTeam in t && m.awayTeam in t
  }

  predicate CoversAll(t: map<string, TeamStanding>, ms: seq<Match>)
  {
    forall m :: m in ms ==> Covers(t, m)
  }

  /**
   The table after one match: an unplayed match changes nothing; a played one
   credits each side with its own goals, the goals it conceded and the points
   its result earns, also into its head-to-head entry for the other side.
   */
  function ApplyMatch(t: map<string, TeamStanding>, m: Match): (t': map<string, TeamStanding>)
    requires WellFormed(m) && Covers(t, m)
    ensures t'.Keys == t.Keys
    ensures Keyed(t) ==> Keyed(t')
  {
    if !m.matchPlayed then t
    else
      t[m.homeTeam := Credit(t[m.homeTeam], m.awayTeam, m.homeTeamScore, m.awayTeamScore)]
       [m.awayTeam := Credit(t[m.awayTeam], m.homeTeam, m.awayTeamScore, m.homeTeamScore)]
  }

  /** The table after the matches of `ms`, folded in from first to last. */
  function Aggregate(t: map<string, TeamStanding>, ms: seq<Match>): (t': map<string, TeamStanding>)
    requires AllWellFormed(ms) && CoversAll(t, ms)
    ensures t'.Keys == t.Keys
    ensures Keyed(t) ==> Keyed(t')
    decreases |ms|
  {
    if ms == [] then t
    else ApplyMatch(Aggregate(t, ms[..|ms| - 1]), ms[|ms| - 1])
  }

  /** `names` with `n` appended unless it is already there. */
  function Note(names: seq<string>, n: string): (r: seq<string>)
    ensures NoDup(names) ==> NoDup(r)
    ensures Elements(r) == Elements(names) + {n}
  {
    if n in names then names
    else
      assert Elements(names + [n]) == Elements(names) + {n};
      names + [n]
  }

  /**
   The team names of `ms` in first-seen order: for each match, its home team
   and then its away team, each taken the first time it occurs.
   */
  function Discover(ms: seq<Match>): (names: seq<string>)
    ensures NoDup(names)
    ensures Elements(names) == TeamsOf(ms)
  {
    if ms == [] then []
    else
      var init, m := ms[..|ms| - 1], ms[|ms| - 1];
      TeamsOfSnoc(init, m);
      assert ms == init + [m];
      Note(Note(Discover(init), m.homeTeam), m.awayTeam)
  }

  /** One zeroed record per name. */
  function Initial(names: seq<string>): map<string, TeamStanding>
  {
    map n | n in names :: Zeroed(n)
  }

  /** The zeroed table of the discovered teams has a record for both sides of every match. */
  lemma DiscoverCovers(ms: seq<Match>)
    ensures CoversAll(Initial(Discover(ms)), ms)
  {
    TeamsOfMembers(ms);
  }

  /** The aggregated record of every team of `ms`, keyed by name. */
  function Table(ms: seq<Match>): (t: map<string, TeamStanding>)
    requires AllWellFormed(ms)
    ensures t.Keys == TeamsOf(ms)
    ensures Keyed(t)
  {
    DiscoverCovers(ms);
    Aggregate(Initial(Discover(ms)), ms)
  }

  /** The records of `t` for `names`, in the order of `names`. */
  function Records(names: seq<string>, t: map<string, TeamStanding>): (rs: seq<TeamStanding>)
    requires forall n :: n in names ==> n in t
    ensures |rs| == |names|
    ensures forall i :: 0 <= i < |names| ==> rs[i] == t[names[i]]
    decreases |names|
  {
    if names == [] then []
    else Records(names[..|names| - 1], t) + [t[names[|names| - 1]]]
  }

  /** The unsorted team list: each team's aggregated record, in first-seen order. */
  function TeamList(ms: seq<Match>): seq<TeamStanding>
    requires AllWellFormed(ms)
  {
    Records(Discover(ms), Table(ms))
  }

  /** All records have distinct team names. */
  predicate DistinctNames(rs: seq<TeamStanding>)
  {
    forall i, j :: 0 <= i < j < |rs| ==> rs[i].teamName != rs[j].teamName
  }
}
