/**
 The league service: it keeps the match schedule and computes the
 leaderboard from it. Each method follows the service's own steps and is
 proved against the specification functions of `Standings` and `Ranking`.
 */
module League {
  import opened SeqFacts
  import opened Fixtures
  import opened Standings
  import opened Aggregation
  import opened Ranking
  import opened Leaderboard

  datatype Option<T> = None | Some(value: T)

  datatype Result<T, E> = Ok(value: T) | Err(error: E)

  /** What one HTTP exchange yields: the decoded JSON body, or a failure to fetch or decode it. */
  datatype Transport<T> = Received(body: T) | Failed

  /** The body of the access-token endpoint's reply. */
  datatype TokenReply = TokenReply(success: bool, accessToken: string)

  /** The body of the all-matches endpoint's reply. */
  datatype MatchesReply = MatchesReply(success: bool, matches: seq<Match>)

  /** Why fetching the schedule failed; each is an exception the service rethrows. */
  datatype FetchError =
    | TokenRequestFailed    // the token request or its JSON decoding threw
    | TokenRejected         // the token reply said `success: false`
    | MatchesRequestFailed  // the matches request or its JSON decoding threw
    | MatchesRejected       // the matches reply said `success: false`

  class LeagueService {
    /** The match schedule, as last set. */
    var matches: seq<Match>

    constructor()
      ensures matches == []
    {
      matches := [];
    }

    /** Replaces the schedule. */
    method SetMatches(ms: seq<Match>)
      modifies this
      ensures matches == ms
    {
      matches := ms;
    }

    /** The schedule, unchanged. */
    method GetMatches() returns (ms: seq<Match>)
      ensures ms == matches
    {
      ms := matches;
    }

    /**
     Fetches a token, then the schedule with that token, and stores the
     schedule. The two replies are parameters: `tokenReply` is what the token
     endpoint answers, and `matchesEndpoint` what the matches endpoint answers
     to a given Authorization header. `authorization` is the header sent to the
     matches endpoint, if the service got that far.
     */
    method FetchData(tokenReply: Transport<TokenReply>, matchesEndpoint: string -> Transport<MatchesReply>)
      returns (result: Result<seq<Match>, FetchError>, authorization: Option<string>)
      modifies this
      ensures authorization.Some? <==> tokenReply.Received? && tokenReply.body.success
      ensures authorization.Some? ==> authorization.value == "Bearer " + tokenReply.body.accessToken
      ensures tokenReply.Failed? ==> result == Err(TokenRequestFailed)
      ensures tokenReply.Received? && !tokenReply.body.success ==> result == Err(TokenRejected)
      ensures authorization.Some? ==>
        match matchesEndpoint(authorization.value)
        case Failed => result == Err(MatchesRequestFailed)
        case Received(reply) =>
          result == (if reply.success then Ok(reply.matches) else Err(MatchesRejected))
      ensures result.Ok? ==> matches == result.value
      ensures result.Err? ==> matches == old(matches)
    {
      authorization := None;
      if tokenReply.Failed? {
        return Err(TokenRequestFailed), authorization;
      }
      var tokenData := tokenReply.body;
      if !tokenData.success {
        return Err(TokenRejected), authorization;
      }
      authorization := Some("Bearer " + tokenData.accessToken);
      var matchesReply := matchesEndpoint(authorization.value);
      if matchesReply.Failed? {
        return Err(MatchesRequestFailed), authorization;
      }
      var matchesData := matchesReply.body;
      if !matchesData.success {
        return Err(MatchesRejected), authorization;
      }
      SetMatches(matchesData.matches);
      result := Ok(matchesData.matches);
    }

    /**
     The leaderboard of the current schedule: one record per team that occurs
     in any match, aggregated over the played matches and sorted by the
     ranking comparator.
     */
    method GetLeaderboard() returns (board: seq<TeamStanding>)
      requires AllWellFormed(matches)
      ensures IsLeaderboard(matches, board)
    {
      ghost var ms := matches;
      var teams, order := BuildTable();
      var a := new TeamStanding[|order|](k requires 0 <= k < |order| => teams[order[k]]);
      RecordsExt(order, teams, a[..]);
      ghost var unsorted := a[..];
      SortTeams(a);
      board := a[..];
      assert matches == ms;
      SortedTeamList(ms, unsorted, board);
    }

    /**
     The aggregated record of every team of the schedule, and the team names
     in first-seen order.
     */
    method BuildTable() returns (teams: map<string, TeamStanding>, order: seq<string>)
      requires AllWellFormed(matches)
      ensures order == Discover(matches) && teams == Table(matches)
      ensures forall n :: n in order ==> n in teams
    {
      teams, order := InitializeTeams();
      teams := CalculateStatistics(teams);
      InitialCovers(matches);
      forall n | n in order
        ensures n in teams
      {
        assert n in Elements(order);
      }
    }

    /**
     The table after folding every played match of the schedule, in order,
     into the records of `initial`; unplayed matches are skipped.
     */
    method CalculateStatistics(initial: map<string, TeamStanding>) returns (teams: map<string, TeamStanding>)
      requires AllWellFormed(matches) && CoversAll(initial, matches) && Keyed(initial)
      ensures teams == Aggregate(initial, matches)
    {
      teams := initial;
      assert matches[..0] == [];
      var i := 0;
      while i < |matches|
        invariant 0 <= i <= |matches|
        invariant AllWellFormed(matches[..i]) && CoversAll(initial, matches[..i])
        invariant teams == Aggregate(initial, matches[..i])
        invariant Keyed(teams)
      {
        var m := matches[i];
        AggregateStep(initial, matches, i);
        if m.matchPlayed {
          var home, away := TallyMatch(teams[m.homeTeam], teams[m.awayTeam], m);
          teams := teams[m.homeTeam := home][m.awayTeam := away];
        }
        i := i + 1;
      }
      assert matches[..i] == matches;
    }

    /**
     The zeroed record of every team that occurs as home or away side of a
     match, played or not, keyed by name; `order` lists the names in the order
     they were first seen.
     */
    method InitializeTeams() returns (teams: map<string, TeamStanding>, order: seq<string>)
      ensures order == Discover(matches)
      ensures teams == Initial(order)
      ensures CoversAll(teams, matches) && Keyed(teams)
    {
      teams, order := map[], [];
      var i := 0;
      while i < |matches|
        invariant 0 <= i <= |matches|
        invariant order == Discover(matches[..i])
        invariant teams == Initial(order)
      {
        var m := matches[i];
        DiscoverStep(matches, i);
        if m.homeTeam !in teams {
          InitialSnoc(order, m.homeTeam);
          teams := teams[m.homeTeam := Zeroed(m.homeTeam)];
          order := order + [m.homeTeam];
        }
        if m.awayTeam !in teams {
          InitialSnoc(order, m.awayTeam);
          teams := teams[m.awayTeam := Zeroed(m.awayTeam)];
          order := order + [m.awayTeam];
        }
        i := i + 1;
      }
      assert matches[..i] == matches;
      DiscoverCovers(matches);
    }

    /**
     The two records after the played match `m` between them: each side gets
     one more match, its goals for and against, the goal difference they
     give, and the points its result earns, also into its head-to-head entry
     for the other side.
     */
    method TallyMatch(home: TeamStanding, away: TeamStanding, m: Match) returns (home': TeamStanding, away': TeamStanding)
      ensures home' == Credit(home, away.teamName, m.homeTeamScore, m.awayTeamScore)
      ensures away' == Credit(away, home.teamName, m.awayTeamScore, m.homeTeamScore)
    {
      home', away' := home, away;

      home' := home'.(matchesPlayed := home'.matchesPlayed + 1);
      away' := away'.(matchesPlayed := away'.matchesPlayed + 1);

      home' := home'.(goalsFor := home'.goalsFor + m.homeTeamScore, goalsAgainst := home'.goalsAgainst + m.awayTeamScore);
      away' := away'.(goalsFor := away'.goalsFor + m.awayTeamScore, goalsAgainst := away'.goalsAgainst + m.homeTeamScore);

      home' := home'.(goalDifference := home'.goalsFor - home'.goalsAgainst);
      away' := away'.(goalDifference := away'.goalsFor - away'.goalsAgainst);

      if m.homeTeamScore > m.awayTeamScore {
        home' := home'.(points := home'.points + 3);
        home', away' := UpdateHeadToHead(home', away', 3, 0);
      } else if m.homeTeamScore < m.awayTeamScore {
        away' := away'.(points := away'.points + 3);
        home', away' := UpdateHeadToHead(home', away', 0, 3);
      } else {
        home' := home'.(points := home'.points + 1);
        away' := away'.(points := away'.points + 1);
        home', away' := UpdateHeadToHead(home', away', 1, 1);
      }
      CreditByFields(home, home', away.teamName, m.homeTeamScore, m.awayTeamScore);
      CreditByFields(away, away', home.teamName, m.awayTeamScore, m.homeTeamScore);
    }

    /**
     Credits `homePoints` to the home side's head-to-head entry for the away
     side and `awayPoints` to the away side's entry for the home side; a
     missing entry starts at 0. Nothing else in either record changes.
     */
    method UpdateHeadToHead(home: TeamStanding, away: TeamStanding, homePoints: nat, awayPoints: nat)
      returns (home': TeamStanding, away': TeamStanding)
      ensures home' == home.(headToHead := AddPoints(home.headToHead, away.teamName, homePoints))
      ensures away' == away.(headToHead := AddPoints(away.headToHead, home.teamName, awayPoints))
    {
      var homeH2h, awayH2h := home.headToHead, away.headToHead;
      if away.teamName !in homeH2h {
        homeH2h := homeH2h[away.teamName := 0];
      }
      if home.teamName !in awayH2h {
        awayH2h := awayH2h[home.teamName := 0];
      }
      homeH2h := homeH2h[away.teamName := homeH2h[away.teamName] + homePoints];
      awayH2h := awayH2h[home.teamName := awayH2h[home.teamName] + awayPoints];
      home' := home.(headToHead := homeH2h);
      away' := away.(headToHead := awayH2h);
    }

    /**
     Sorts the records in place by the ranking comparator. The comparator's
     points groups are counted in the list as it was before sorting, which
     holds the same records as the list at any later moment.
     */
    method SortTeams(a: array<TeamStanding>)
      modifies a
      ensures Sorted(old(a[..]), a[..])
      ensures multiset(a[..]) == multiset(old(a[..]))
    {
      var teams := a[..];
      var i := 0;
      while i < a.Length
        invariant 0 <= i <= a.Length
        invariant multiset(a[..]) == multiset(teams)
        invariant SortedPrefix(teams, a[..], i)
      {
        InsertLast(a, teams, i);
        i := i + 1;
      }
    }

    /**
     One step of the insertion sort behind `SortTeams`: moves `a[i]` down into
     the sorted prefix `a[..i]` so that `a[..i + 1]` is sorted.
     */
    method InsertLast(a: array<TeamStanding>, teams: seq<TeamStanding>, i: int)
      requires 0 <= i < a.Length
      requires multiset(a[..]) == multiset(teams)
      requires SortedPrefix(teams, a[..], i)
      modifies a
      ensures multiset(a[..]) == multiset(teams)
      ensures SortedPrefix(teams, a[..], i + 1)
      ensures a[i + 1..] == old(a[i + 1..])
    {
      InsertingStart(teams, a[..], i);
      var j := i;
      while 0 < j && Compare(teams, a[j - 1], a[j]) > 0
        invariant 0 <= j <= i
        invariant multiset(a[..]) == multiset(teams)
        invariant Inserting(teams, a[..], i, j)
        invariant a[i + 1..] == old(a[i + 1..])
      {
        ghost var before := a[..];
        InsertingSwap(teams, before, i, j);
        SwapPermutes(before, j - 1, j);
        a[j - 1], a[j] := a[j], a[j - 1];
        assert a[..] == Swap(before, j - 1, j);
        j := j - 1;
      }
      InsertingDone(teams, a[..], i, j);
    }
  }

  /** Reading the schedule back returns what was last set. */
  method StoreRoundTrip(service: LeagueService, ms: seq<Match>) returns (got: seq<Match>)
    modifies service
    ensures got == ms
  {
    service.SetMatches(ms);
    got := service.GetMatches();
  }
}
