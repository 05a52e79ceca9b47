/** The ordering of the table: the head-to-head record of
    `get_head_to_head_record` (matches/utils.py:145-195) and the seven-part key
    of `apply_tiebreakers` (matches/utils.py:113-142). */
module Tiebreak {
  import opened LeagueModels
  import opened Standings
  import opened Sorting

  // ---------------------------------------------------------------------------
  // Head to head

  /** The head-to-head query: club `c` as team1 against `o` as team2, or the reverse. */
  predicate Meets(r: MatchResult, c: nat, o: nat) {
    (r.fixture.team1.id == c && r.fixture.team2.id == o) || (r.fixture.team1.id == o && r.fixture.team2.id == c)
  }

  /** The results the query returns, in stored order. */
  function Meetings(rs: seq<MatchResult>, c: nat, o: nat): seq<MatchResult> {
    if rs == [] then []
    else Meetings(rs[..|rs| - 1], c, o) + (if Meets(rs[|rs| - 1], c, o) then [rs[|rs| - 1]] else [])
  }

  /** Points of one meeting to club `c`, following the branch on the slot `c`
      holds: a win counts 3 (through the win counters) and a draw 1. */
  function MeetingPoints(c: nat, r: MatchResult): int {
    if r.fixture.team1.id == c then
      (if r.team1Goals > r.team2Goals then 3 else if r.team1Goals == r.team2Goals then 1 else 0)
    else
      (if r.team2Goals > r.team1Goals then 3 else if r.team2Goals == r.team1Goals then 1 else 0)
  }

  /** Goal margin of one meeting to club `c`: added on a win and on a loss,
      nothing on a draw. */
  function MeetingMargin(c: nat, r: MatchResult): int {
    if r.fixture.team1.id == c then
      (if r.team1Goals > r.team2Goals then r.team1Goals - r.team2Goals
       else if r.team1Goals == r.team2Goals then 0
       else r.team1Goals - r.team2Goals)
    else
      (if r.team2Goals > r.team1Goals then r.team2Goals - r.team1Goals
       else if r.team2Goals == r.team1Goals then 0
       else r.team2Goals - r.team1Goals)
  }

  /** Measure `m` of club `c` summed over meetings `ms`. */
  function MeetingsTotal(c: nat, ms: seq<MatchResult>, m: (nat, MatchResult) -> int): int {
    if ms == [] then 0 else MeetingsTotal(c, ms[..|ms| - 1], m) + m(c, ms[|ms| - 1])
  }

  /** Measure `m` of club `c` over its meetings with each opponent in `opps`
      in turn, skipping `c` itself. */
  function HeadToHead(c: nat, opps: seq<nat>, rs: seq<MatchResult>, m: (nat, MatchResult) -> int): int {
    if opps == [] then 0
    else
      var o := opps[|opps| - 1];
      HeadToHead(c, opps[..|opps| - 1], rs, m) + (if o == c then 0 else MeetingsTotal(c, Meetings(rs, c, o), m))
  }

  /** `get_head_to_head_record(club, table_data)` with the result table `rs`:
      six counters updated over every opponent's meetings, then combined into
      points and goal difference. */
  method GetHeadToHeadRecord(club: Club, table: seq<Stats>, rs: seq<MatchResult>) returns (points: int, goalDiff: int)
    requires Named(table)
    ensures points == HeadToHead(club.id, RowIds(table), rs, MeetingPoints)
    ensures goalDiff == HeadToHead(club.id, RowIds(table), rs, MeetingMargin)
  {
    var homeWins, awayWins, homeDraws, awayDraws := 0, 0, 0, 0;
    var homeGoalDiff, awayGoalDiff := 0, 0;
    ghost var ids := RowIds(table);
    var i := 0;
    while i < |table|
      invariant 0 <= i <= |table|
      invariant (homeWins + awayWins) * 3 + (homeDraws + awayDraws) == HeadToHead(club.id, ids[..i], rs, MeetingPoints)
      invariant homeGoalDiff + awayGoalDiff == HeadToHead(club.id, ids[..i], rs, MeetingMargin)
    {
      assert ids[..i + 1][..i] == ids[..i];
      var opponent := table[i].club.value;
      if opponent.id != club.id {
        var h2h := Meetings(rs, club.id, opponent.id);
        ghost var before, beforeMargin := (homeWins + awayWins) * 3 + (homeDraws + awayDraws), homeGoalDiff + awayGoalDiff;
        var j := 0;
        while j < |h2h|
          invariant 0 <= j <= |h2h|
          invariant (homeWins + awayWins) * 3 + (homeDraws + awayDraws) == before + MeetingsTotal(club.id, h2h[..j], MeetingPoints)
          invariant homeGoalDiff + awayGoalDiff == beforeMargin + MeetingsTotal(club.id, h2h[..j], MeetingMargin)
        {
          assert h2h[..j + 1][..j] == h2h[..j];
          var result := h2h[j];
          if result.fixture.team1.id == club.id {
            if result.team1Goals > result.team2Goals {
              homeWins := homeWins + 1;
              homeGoalDiff := homeGoalDiff + (result.team1Goals - result.team2Goals);
            } else if result.team1Goals == result.team2Goals {
              homeDraws := homeDraws + 1;
            } else {
              homeGoalDiff := homeGoalDiff + (result.team1Goals - result.team2Goals);
            }
          } else {
            if result.team2Goals > result.team1Goals {
              awayWins := awayWins + 1;
              awayGoalDiff := awayGoalDiff + (result.team2Goals - result.team1Goals);
            } else if result.team2Goals == result.team1Goals {
              awayDraws := awayDraws + 1;
            } else {
              awayGoalDiff := awayGoalDiff + (result.team2Goals - result.team1Goals);
            }
          }
          j := j + 1;
        }
        assert h2h[..j] == h2h;
      }
      i := i + 1;
    }
    assert ids[..i] == ids;
    points := (homeWins + awayWins) * 3 + (homeDraws + awayDraws) * 1;
    goalDiff := homeGoalDiff + awayGoalDiff;
  }

  /** The club's opponent in a result it plays in. */
  function Opponent(c: nat, r: MatchResult): nat {
    if r.fixture.team1.id == c then r.fixture.team2.id else r.fixture.team1.id
  }

  /** The result with its slots exchanged: the same match written the other way round. */
  function Mirror(r: MatchResult): MatchResult {
    MatchResult(r.fixture.(team1 := r.fixture.team2, team2 := r.fixture.team1), r.team2Goals, r.team1Goals)
  }

  /** One meeting between two different clubs is worth to club `c` 3 points
      for a win, 1 for a draw and 0 for a loss, with its own goals minus the
      opponent's as margin; the same whichever slot `c` holds. */
  lemma MeetingValue(c: nat, r: MatchResult)
    requires Involves(r, c) && r.fixture.team1.id != r.fixture.team2.id
    ensures var own, other := SlotSum(c, r, Scored), SlotSum(c, r, Conceded);
      && MeetingPoints(c, r) == (if own > other then 3 else if own == other then 1 else 0)
      && MeetingMargin(c, r) == own - other
      && MeetingPoints(c, r) == SlotSum(c, r, SidePoints)
      && MeetingMargin(c, r) == SlotSum(c, r, Margin)
      && MeetingPoints(c, Mirror(r)) == MeetingPoints(c, r)
      && MeetingMargin(c, Mirror(r)) == MeetingMargin(c, r)
  {
  }

  // ---------------------------------------------------------------------------
  // The head-to-head record is the overall record

  /** Every result is between two different clubs, as `Fixture.clean` demands. */
  predicate NoSelfMatch(rs: seq<MatchResult>) {
    forall i :: 0 <= i < |rs| ==> Clean(rs[i].fixture).Passed?
  }

  /** Measure `m` of result `r` to club `c`, counted once per opponent in
      `opps` that `r` is a meeting with. */
  function OneMeeting(c: nat, opps: seq<nat>, r: MatchResult, m: (nat, MatchResult) -> int): int {
    if opps == [] then 0
    else
      var o := opps[|opps| - 1];
      OneMeeting(c, opps[..|opps| - 1], r, m) + (if o != c && Meets(r, c, o) then m(c, r) else 0)
  }

  lemma {:induction false} MeetingsTotalSnoc(c: nat, ms: seq<MatchResult>, r: MatchResult, m: (nat, MatchResult) -> int)
    ensures MeetingsTotal(c, ms + [r], m) == MeetingsTotal(c, ms, m) + m(c, r)
  {
    assert (ms + [r])[..|ms|] == ms;
  }

  /** Adding a result to the table adds its meeting once per opponent it is with. */
  lemma {:induction false} HeadToHeadSnoc(c: nat, opps: seq<nat>, rs: seq<MatchResult>, m: (nat, MatchResult) -> int)
    requires rs != []
    ensures HeadToHead(c, opps, rs, m)
            == HeadToHead(c, opps, rs[..|rs| - 1], m) + OneMeeting(c, opps, rs[|rs| - 1], m)
  {
    if opps != [] {
      var o, r := opps[|opps| - 1], rs[|rs| - 1];
      HeadToHeadSnoc(c, opps[..|opps| - 1], rs, m);
      if Meets(r, c, o) {
        MeetingsTotalSnoc(c, Meetings(rs[..|rs| - 1], c, o), r, m);
      } else {
        assert Meetings(rs, c, o) == Meetings(rs[..|rs| - 1], c, o) + [];
        assert Meetings(rs[..|rs| - 1], c, o) + [] == Meetings(rs[..|rs| - 1], c, o);
      }
    }
  }

  /** Among opponents listed once each, a result between two different clubs
      is a meeting with exactly one of them when it involves `c` and its
      opponent is listed, and with none otherwise. */
  lemma {:induction false} OneMeetingCount(c: nat, opps: seq<nat>, r: MatchResult, m: (nat, MatchResult) -> int)
    requires NoDuplicates(opps) && r.fixture.team1.id != r.fixture.team2.id
    ensures OneMeeting(c, opps, r, m) == (if Involves(r, c) && Opponent(c, r) in opps then m(c, r) else 0)
  {
    if opps != [] {
      var prefix := opps[..|opps| - 1];
      assert NoDuplicates(prefix);
      OneMeetingCount(c, prefix, r, m);
      assert opps == prefix + [opps[|opps| - 1]];
      if Involves(r, c) && Opponent(c, r) == opps[|opps| - 1] {
        assert Opponent(c, r) !in prefix;
      }
    }
  }

  /** When every club of the results is among the opponents, listed once
      each, and no club meets itself, the head-to-head sums over the
      opponents are the club's sums over all its results. */
  lemma {:induction false} HeadToHeadCoversAllResults(c: nat, opps: seq<nat>, rs: seq<MatchResult>)
    requires NoSelfMatch(rs) && NoDuplicates(opps)
    requires forall id :: id in ClubIds(rs) ==> id in opps
    ensures HeadToHead(c, opps, rs, MeetingPoints) == Sum(c, rs, SidePoints)
    ensures HeadToHead(c, opps, rs, MeetingMargin) == Sum(c, rs, Margin)
  {
    if rs == [] {
      HeadToHeadEmpty(c, opps, MeetingPoints);
      HeadToHeadEmpty(c, opps, MeetingMargin);
    } else {
      var prev, r := rs[..|rs| - 1], rs[|rs| - 1];
      assert NoSelfMatch(prev) by {
        forall i | 0 <= i < |prev| ensures Clean(prev[i].fixture).Passed? {
          assert prev[i] == rs[i];
        }
      }
      assert Clean(rs[|rs| - 1].fixture).Passed?;
      HeadToHeadCoversAllResults(c, opps, prev);
      HeadToHeadSnoc(c, opps, rs, MeetingPoints);
      HeadToHeadSnoc(c, opps, rs, MeetingMargin);
      OneMeetingCount(c, opps, r, MeetingPoints);
      OneMeetingCount(c, opps, r, MeetingMargin);
      if Involves(r, c) {
        MeetingValue(c, r);
        assert Opponent(c, r) in ClubIds(rs);
      }
    }
  }

  lemma {:induction false} HeadToHeadEmpty(c: nat, opps: seq<nat>, m: (nat, MatchResult) -> int)
    ensures HeadToHead(c, opps, [], m) == 0
  {
    if opps != [] {
      HeadToHeadEmpty(c, opps[..|opps| - 1], m);
    }
  }

  // ---------------------------------------------------------------------------
  // The sort key

  /** `tiebreaker_key`: points, goal difference and goals for descending,
      head-to-head points and goal difference descending, cards ascending, and
      last the club's tie-break value. The head-to-head record is taken
      against the clubs `opps` of the rows being sorted. */
  function TiebreakerKey(row: Stats, opps: seq<nat>, rs: seq<MatchResult>, tb: string -> int): (k: seq<int>)
    requires row.club.Some?
    ensures |k| == 7
    ensures k[0] <= 0 && k[2] <= 0
    ensures k[6] == tb(row.club.value.name)
  {
    var club := row.club.value;
    [-(row.points as int), -row.goalDifference, -(row.goalsFor as int),
     -HeadToHead(club.id, opps, rs, MeetingPoints), -HeadToHead(club.id, opps, rs, MeetingMargin),
     row.totalCards, tb(club.name)]
  }

  /** What a row placed no later than another is guaranteed: at least as
      many points; on equal points at least the goal difference; on equal
      points and goal difference at least the goals; and when the
      head-to-head record ties as well, no more disciplinary points. */
  lemma {:induction false} KeyOrder(x: Stats, y: Stats, opps: seq<nat>, rs: seq<MatchResult>, tb: string -> int)
    requires x.club.Some? && y.club.Some?
    requires LexLe(TiebreakerKey(x, opps, rs, tb), TiebreakerKey(y, opps, rs, tb))
    ensures x.points >= y.points
    ensures x.points == y.points ==> x.goalDifference >= y.goalDifference
    ensures x.points == y.points && x.goalDifference == y.goalDifference ==> x.goalsFor >= y.goalsFor
    ensures var kx, ky := TiebreakerKey(x, opps, rs, tb), TiebreakerKey(y, opps, rs, tb);
      kx[..5] == ky[..5] ==> x.totalCards <= y.totalCards
  {
    var kx, ky := TiebreakerKey(x, opps, rs, tb), TiebreakerKey(y, opps, rs, tb);
    LexLeHead(kx, ky);
    if kx[0] == ky[0] {
      LexLeHead(kx[1..], ky[1..]);
      if kx[1] == ky[1] {
        LexLeHead(kx[2..], ky[2..]);
        assert kx[2..][1..] == kx[3..] && ky[2..][1..] == ky[3..];
        if kx[..5] == ky[..5] {
          assert kx[2] == ky[2];
          LexLeHead(kx[3..], ky[3..]);
          assert kx[3..][1..] == kx[4..] && ky[3..][1..] == ky[4..];
          LexLeHead(kx[4..], ky[4..]);
          assert kx[4..][1..] == kx[5..] && ky[4..][1..] == ky[5..];
          LexLeHead(kx[5..], ky[5..]);
        }
      }
    }
  }

  /** Rows level on points, goal difference, goals and head-to-head record
      share the first five components of their keys. */
  lemma LevelKeys(x: Stats, y: Stats, opps: seq<nat>, rs: seq<MatchResult>, tb: string -> int)
    requires x.club.Some? && y.club.Some?
    requires x.points == y.points && x.goalDifference == y.goalDifference && x.goalsFor == y.goalsFor
    requires HeadToHead(x.club.value.id, opps, rs, MeetingPoints) == HeadToHead(y.club.value.id, opps, rs, MeetingPoints)
    requires HeadToHead(x.club.value.id, opps, rs, MeetingMargin) == HeadToHead(y.club.value.id, opps, rs, MeetingMargin)
    ensures TiebreakerKey(x, opps, rs, tb)[..5] == TiebreakerKey(y, opps, rs, tb)[..5]
  {
  }

  /** The key `sorted` is given; every row of the table names a club. */
  function RankKey(opps: seq<nat>, rs: seq<MatchResult>, tb: string -> int): Stats -> seq<int> {
    (row: Stats) => if row.club.Some? then TiebreakerKey(row, opps, rs, tb) else []
  }

  /** `apply_tiebreakers`: the rows in ascending key order, equal keys in
      their original order. */
  function ApplyTiebreakers(table: seq<Stats>, rs: seq<MatchResult>, tb: string -> int): (sorted: seq<Stats>)
    requires Named(table)
    ensures multiset(sorted) == multiset(table) && |sorted| == |table|
    ensures SortedBy(sorted, RankKey(RowIds(table), rs, tb))
  {
    SortBy(table, RankKey(RowIds(table), rs, tb))
  }

  /** No two rows name clubs of the same name. */
  predicate UniqueNames(table: seq<Stats>)
    requires Named(table)
  {
    forall i, j :: 0 <= i < j < |table| ==> table[i].club.value.name != table[j].club.value.name
  }

  /** With club names unique and a tie-break value that tells names apart, no
      two rows share a key, so the order is fully determined: any arrangement
      of the rows that is sorted by the key is the one `apply_tiebreakers` returns. */
  lemma ApplyTiebreakersDetermined(table: seq<Stats>, rs: seq<MatchResult>, tb: string -> int, other: seq<Stats>)
    requires Named(table) && UniqueNames(table)
    requires forall a, b :: tb(a) == tb(b) ==> a == b
    requires multiset(other) == multiset(table)
    requires SortedBy(other, RankKey(RowIds(table), rs, tb))
    ensures other == ApplyTiebreakers(table, rs, tb)
  {
    var key := RankKey(RowIds(table), rs, tb);
    var sorted := ApplyTiebreakers(table, rs, tb);
    forall x, y | x in multiset(sorted) && y in multiset(sorted) && key(x) == key(y)
      ensures x == y
    {
      var i :| 0 <= i < |table| && table[i] == x;
      var j :| 0 <= j < |table| && table[j] == y;
      assert key(x)[6] == tb(x.club.value.name) && key(y)[6] == tb(y.club.value.name);
      assert x.club.value.name == y.club.value.name;
      assert i == j;
    }
    SortedUnique(sorted, other, key);
  }
}
