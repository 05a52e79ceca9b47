/** `get_recent_form` (matches/utils.py:198-227): the club's results, most
    recent first, cut to the requested number, each turned into a W, D or L. */
module Form {
  import opened LeagueModels
  import opened Sorting
  import opened Standings

  /** The query's filter: results in which club `id` plays in either slot, in
      stored order. */
  function Involving(rs: seq<MatchResult>, id: nat): (ms: seq<MatchResult>)
    ensures |ms| <= |rs|
    ensures forall i :: 0 <= i < |ms| ==> Involves(ms[i], id) && ms[i] in rs
    ensures forall r :: multiset(ms)[r] == (if Involves(r, id) then multiset(rs)[r] else 0)
  {
    if rs == [] then []
    else
      assert rs == rs[..|rs| - 1] + [rs[|rs| - 1]];
      Involving(rs[..|rs| - 1], id) + (if Involves(rs[|rs| - 1], id) then [rs[|rs| - 1]] else [])
  }

  /** The ordering key of `order_by('-fixture__date')`. */
  function DateKey(r: MatchResult): seq<int> {
    [-r.fixture.date]
  }

  /** The query: the club's `n` latest results, latest kick-off first, or
      all of them when it has fewer. No result left out kicked off later
      than one reported. */
  function RecentResults(rs: seq<MatchResult>, club: Club, n: nat): (recent: seq<MatchResult>)
    ensures var all := Involving(rs, club.id);
      && |recent| == (if n < |all| then n else |all|)
      && multiset(recent) <= multiset(all)
      && (forall i, j :: 0 <= i < j < |recent| ==> recent[i].fixture.date >= recent[j].fixture.date)
      && (forall r, i :: r in multiset(all) - multiset(recent) && 0 <= i < |recent|
                         ==> recent[i].fixture.date >= r.fixture.date)
  {
    var ordered := SortBy(Involving(rs, club.id), DateKey);
    var m := if n < |ordered| then n else |ordered|;
    LatestFirst(Involving(rs, club.id), m);
    ordered[..m]
  }

  /** Cutting the date-sorted results after `m` keeps them latest first and
      leaves out none that kicked off later than one kept. */
  lemma LatestFirst(all: seq<MatchResult>, m: nat)
    requires m <= |all|
    ensures var kept := SortBy(all, DateKey)[..m];
      && multiset(kept) <= multiset(all)
      && (forall i, j :: 0 <= i < j < |kept| ==> kept[i].fixture.date >= kept[j].fixture.date)
      && (forall r, i :: r in multiset(all) - multiset(kept) && 0 <= i < |kept|
                         ==> kept[i].fixture.date >= r.fixture.date)
  {
    var ordered := SortBy(all, DateKey);
    assert ordered == ordered[..m] + ordered[m..];
    forall i, j | 0 <= i < j < |ordered|
      ensures ordered[i].fixture.date >= ordered[j].fixture.date
    {
      assert LexLe(DateKey(ordered[i]), DateKey(ordered[j]));
    }
    forall r, i | r in multiset(all) - multiset(ordered[..m]) && 0 <= i < m
      ensures ordered[i].fixture.date >= r.fixture.date
    {
      assert r in multiset(ordered[m..]);
      var k :| 0 <= k < |ordered[m..]| && ordered[m..][k] == r;
      assert ordered[m + k] == r;
    }
  }

  /** The letter one result earns the club, branch for branch as the loop
      body decides it. */
  function FormLetter(r: MatchResult, club: Club): (letter: char)
    ensures letter == 'W' || letter == 'D' || letter == 'L'
  {
    if WonBy(r, club) then 'W'
    else if r.fixture.team1.id == club.id then
      (if r.team1Goals > r.team2Goals then 'W' else if r.team1Goals == r.team2Goals then 'D' else 'L')
    else
      (if r.team2Goals > r.team1Goals then 'W' else if r.team2Goals == r.team1Goals then 'D' else 'L')
  }

  /** The letters for results `ms`, one per result, in the same order. */
  function FormOf(ms: seq<MatchResult>, club: Club): (form: string)
    ensures |form| == |ms|
    ensures forall i :: 0 <= i < |ms| ==> form[i] == FormLetter(ms[i], club)
  {
    if ms == [] then [] else FormOf(ms[..|ms| - 1], club) + [FormLetter(ms[|ms| - 1], club)]
  }

  /** `get_recent_form(club, num_matches)` over the stored results: the
      query, then the loop that spells out the letters. */
  method GetRecentForm(club: Club, results: seq<MatchResult>, numMatches: nat) returns (form: string)
    ensures form == FormOf(RecentResults(results, club, numMatches), club)
  {
    var recentResults := RecentResults(results, club, numMatches);
    form := SpellForm(club, recentResults);
  }

  /** The loop of `get_recent_form`: one letter appended per result. */
  method SpellForm(club: Club, recentResults: seq<MatchResult>) returns (form: string)
    ensures form == FormOf(recentResults, club)
  {
    form := "";
    var i := 0;
    while i < |recentResults|
      invariant 0 <= i <= |recentResults|
      invariant form == FormOf(recentResults[..i], club)
    {
      assert recentResults[..i + 1][..i] == recentResults[..i];
      var result := recentResults[i];
      if WonBy(result, club) {
        form := form + "W";
      } else if result.fixture.team1.id == club.id {
        if result.team1Goals > result.team2Goals {
          form := form + "W";
        } else if result.team1Goals == result.team2Goals {
          form := form + "D";
        } else {
          form := form + "L";
        }
      } else {
        if result.team2Goals > result.team1Goals {
          form := form + "W";
        } else if result.team2Goals == result.team1Goals {
          form := form + "D";
        } else {
          form := form + "L";
        }
      }
      i := i + 1;
    }
    assert recentResults[..i] == recentResults;
  }

  /** The default number of results in a form string. */
  const DefaultFormLength: nat := 5

  /** `get_recent_form(club)`, relying on the default `num_matches=5`. */
  method GetDefaultRecentForm(club: Club, results: seq<MatchResult>) returns (form: string)
    ensures form == FormOf(RecentResults(results, club, DefaultFormLength), club)
    ensures |form| <= 5
  {
    form := GetRecentForm(club, results, DefaultFormLength);
  }

  /** Goals the club scored and conceded in a result it plays in. */
  function OwnGoals(r: MatchResult, id: nat): nat {
    if r.fixture.team1.id == id then r.team1Goals else r.team2Goals
  }

  function OpponentGoals(r: MatchResult, id: nat): nat {
    if r.fixture.team1.id == id then r.team2Goals else r.team1Goals
  }

  /** In a result between two different clubs, one of them the club, the
      letter is W exactly when the club scored more, D exactly when the
      scores are level and L exactly when it scored fewer; and W is the
      letter exactly when the result's winner is the club. */
  lemma FormLetterMeaning(r: MatchResult, club: Club)
    requires Involves(r, club.id) && r.fixture.team1.id != r.fixture.team2.id
    ensures FormLetter(r, club) == 'W' <==> OwnGoals(r, club.id) > OpponentGoals(r, club.id)
    ensures FormLetter(r, club) == 'D' <==> OwnGoals(r, club.id) == OpponentGoals(r, club.id)
    ensures FormLetter(r, club) == 'L' <==> OwnGoals(r, club.id) < OpponentGoals(r, club.id)
    ensures FormLetter(r, club) == 'W' <==> WonBy(r, club)
  {
  }

  /** The form has one letter per recent result and no padding: as many
      letters as the club has results, up to `n`, so never more than the
      matches it has played; the results behind the letters all involve the
      club, run from the latest kick-off back, and no result of the club left
      out kicked off later than one behind a letter. */
  lemma RecentFormLaws(rs: seq<MatchResult>, club: Club, n: nat)
    ensures var recent := RecentResults(rs, club, n);
      && |FormOf(recent, club)| <= n
      && |FormOf(recent, club)| <= Sum(club.id, rs, Once)
      && |FormOf(recent, club)| == (if n < |Involving(rs, club.id)| then n else |Involving(rs, club.id)|)
      && (forall i :: 0 <= i < |recent| ==> Involves(recent[i], club.id) && recent[i] in rs)
      && (forall i, j :: 0 <= i < j < |recent| ==> recent[i].fixture.date >= recent[j].fixture.date)
      && (forall r, i :: r in multiset(Involving(rs, club.id)) - multiset(recent) && 0 <= i < |recent|
                         ==> recent[i].fixture.date >= r.fixture.date)
  {
    var involving := Involving(rs, club.id);
    var recent := RecentResults(rs, club, n);
    InvolvingAtMostPlayed(rs, club.id);
    forall i | 0 <= i < |recent|
      ensures Involves(recent[i], club.id) && recent[i] in rs
    {
      assert recent[i] in multiset(recent);
      assert recent[i] in multiset(involving);
    }
  }

  /** The club has no more results to report than the matches the table
      counts for it (a club in both slots of a result is counted twice there). */
  lemma {:induction false} InvolvingAtMostPlayed(rs: seq<MatchResult>, id: nat)
    ensures |Involving(rs, id)| <= Sum(id, rs, Once)
  {
    if rs != [] {
      InvolvingAtMostPlayed(rs[..|rs| - 1], id);
    }
  }
}
