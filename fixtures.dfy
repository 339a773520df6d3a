/**
 The match record that the league service stores and aggregates.
 */
module Fixtures {

  /**
   One fixture. `matchDate` is an epoch-millisecond timestamp and `stadium` a
   display string; neither takes part in the standings. Scores are natural
   numbers by construction; for an unplayed match they are carried but ignored.
   */
  datatype Match = Match(
    matchDate: int,
    stadium: string,
    homeTeam: string,
    awayTeam: string,
    matchPlayed: bool,
    homeTeamScore: nat,
    awayTeamScore: nat)

  /** A match is between two different teams. */
  predicate WellFormed(m: Match)
  {
    m.homeTeam != m.awayTeam
  }

  predicate AllWellFormed(ms: seq<Match>)
  {
    forall m :: m in ms ==> WellFormed(m)
  }

  /** Every team name that occurs as home or away side in some match, played or not. */
  function TeamsOf(ms: seq<Match>): set<string>
  {
    if ms == [] then {}
    else TeamsOf(ms[..|ms| - 1]) + {ms[|ms| - 1].homeTeam, ms[|ms| - 1].awayTeam}
  }

  /** Appending a match adds its two teams. */
  lemma TeamsOfSnoc(ms: seq<Match>, m: Match)
    ensures TeamsOf(ms + [m]) == TeamsOf(ms) + {m.homeTeam, m.awayTeam}
  {
    assert (ms + [m])[..|ms|] == ms;
  }

  /** The teams of `ms` are exactly the home and away sides of its matches. */
  lemma {:induction false} TeamsOfMembers(ms: seq<Match>)
    ensures forall m :: m in ms ==> m.homeTeam in TeamsOf(ms) && m.awayTeam in TeamsOf(ms)
    ensures forall n :: n in TeamsOf(ms) ==> exists m :: m in ms && (m.homeTeam == n || m.awayTeam == n)
  {
    if ms != [] {
      var init, last := ms[..|ms| - 1], ms[|ms| - 1];
      TeamsOfMembers(init);
      assert ms == init + [last];
      forall n | n in TeamsOf(ms)
        ensures exists m :: m in ms && (m.homeTeam == n || m.awayTeam == n)
      {
        if n in TeamsOf(init) {
          var m :| m in init && (m.homeTeam == n || m.awayTeam == n);
          assert m in ms;
        } else {
          assert last in ms;
        }
      }
    }
  }

  /** The number of matches that have been played. */
  function PlayedCount(ms: seq<Match>): (n: nat)
    ensures n <= |ms|
  {
    if ms == [] then 0
    else PlayedCount(ms[..|ms| - 1]) + (if ms[|ms| - 1].matchPlayed then 1 else 0)
  }

  /** The played matches of `ms`, in their original order. */
  function PlayedOnly(ms: seq<Match>): (r: seq<Match>)
    ensures |r| == PlayedCount(ms)
    ensures forall m :: m in r ==> m in ms && m.matchPlayed
    ensures forall m :: m in ms && m.matchPlayed ==> m in r
  {
    if ms == [] then []
    else
      var init, last := ms[..|ms| - 1], ms[|ms| - 1];
      assert ms == init + [last];
      PlayedOnly(init) + (if last.matchPlayed then [last] else [])
  }
}
