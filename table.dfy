/** `calculate_table` (matches/utils.py:8-110) as the statements it runs: a
    loop over the results and one over the bookings update a dictionary of
    counters, a third loop keeps the rows of clubs that have played, the rows
    are sorted with `apply_tiebreakers`, and a last loop numbers them. */
module LeagueTable {
  import opened LeagueModels
  import opened Standings
  import opened Sorting
  import opened Tiebreak

  /** A row of the returned table: the club's counters and its position. */
  datatype Standing = Standing(stats: Stats, position: nat)

  /** The sorted rows numbered from 1. */
  function Numbered(rows: seq<Stats>): (table: seq<Standing>)
    ensures |table| == |rows|
    ensures forall i :: 0 <= i < |rows| ==> table[i] == Standing(rows[i], i + 1)
  {
    if rows == [] then [] else Numbered(rows[..|rows| - 1]) + [Standing(rows[|rows| - 1], |rows|)]
  }

  /** The table `calculate_table` returns for results `rs`, bookings `bs` and
      tie-break values `tb`. */
  function LeagueTableOf(rs: seq<MatchResult>, bs: seq<Booking>, tb: string -> int): seq<Standing> {
    TableRowsLaws(rs, bs);
    Numbered(ApplyTiebreakers(TableRows(rs, bs), rs, tb))
  }

  // ---------------------------------------------------------------------------
  // One result, statement by statement

  /** The counters of matches/utils.py:50-57 for one side of a result. */
  function Counted(s: Stats, scored: nat, conceded: nat): Stats {
    s.(matchesPlayed := s.matchesPlayed + 1, goalsFor := s.goalsFor + scored, goalsAgainst := s.goalsAgainst + conceded)
  }

  /** The outcome counters of matches/utils.py:60-75 for one side of a result. */
  function Outcome(s: Stats, scored: nat, conceded: nat): Stats {
    s.(wins := s.wins + (if scored > conceded then 1 else 0),
       draws := s.draws + (if scored == conceded then 1 else 0),
       losses := s.losses + (if scored < conceded then 1 else 0),
       points := s.points + (if scored > conceded then 3 else if scored == conceded then 1 else 0))
  }

  /** The goal difference recomputed from the goals (matches/utils.py:78-83). */
  function WithDifference(s: Stats): Stats {
    s.(goalDifference := s.goalsFor - s.goalsAgainst)
  }

  /** Reading and writing an entry the result loop has already created keeps
      the keys and their order. */
  predicate SameKeys(t0: Tally, t: Tally) {
    t.entries.Keys == t0.entries.Keys && t.order == t0.order
  }

  /** Only the rows of `h` and `a` may differ. */
  ghost predicate OthersKept(t0: Tally, t: Tally, h: nat, a: nat) {
    forall k :: k != h && k != a ==> t.Get(k) == t0.Get(k)
  }

  /** matches/utils.py:46-47: the entries of both clubs are created if
      missing, first-named club first, and name their club. */
  method NameClubs(t0: Tally, team1: Club, team2: Club) returns (t: Tally)
    ensures t.entries.Keys == t0.entries.Keys + {team1.id, team2.id}
    ensures t.order == t0.Put(team1.id, Blank).Put(team2.id, Blank).order
    ensures OthersKept(t0, t, team1.id, team2.id)
    ensures team1.id == team2.id ==> t.Get(team1.id) == t0.Get(team1.id).(club := Some(team2))
    ensures team1.id != team2.id ==>
              t.Get(team1.id) == t0.Get(team1.id).(club := Some(team1)) && t.Get(team2.id) == t0.Get(team2.id).(club := Some(team2))
  {
    t := t0;
    t := t.Put(team1.id, t.Get(team1.id).(club := Some(team1)));
    t := t.Put(team2.id, t.Get(team2.id).(club := Some(team2)));
  }

  /** matches/utils.py:50-57: both clubs' matches and goals. */
  method CountGoals(t0: Tally, team1: Club, team2: Club, g1: nat, g2: nat) returns (t: Tally)
    requires team1.id in t0.entries && team2.id in t0.entries
    ensures SameKeys(t0, t) && OthersKept(t0, t, team1.id, team2.id)
    ensures team1.id == team2.id ==> t.Get(team1.id) == Counted(Counted(t0.Get(team1.id), g1, g2), g2, g1)
    ensures team1.id != team2.id ==>
              t.Get(team1.id) == Counted(t0.Get(team1.id), g1, g2) && t.Get(team2.id) == Counted(t0.Get(team2.id), g2, g1)
  {
    t := t0;
    t := t.Put(team1.id, t.Get(team1.id).(matchesPlayed := t.Get(team1.id).matchesPlayed + 1));
    t := t.Put(team2.id, t.Get(team2.id).(matchesPlayed := t.Get(team2.id).matchesPlayed + 1));
    t := t.Put(team1.id, t.Get(team1.id).(goalsFor := t.Get(team1.id).goalsFor + g1));
    t := t.Put(team1.id, t.Get(team1.id).(goalsAgainst := t.Get(team1.id).goalsAgainst + g2));
    t := t.Put(team2.id, t.Get(team2.id).(goalsFor := t.Get(team2.id).goalsFor + g2));
    t := t.Put(team2.id, t.Get(team2.id).(goalsAgainst := t.Get(team2.id).goalsAgainst + g1));
  }

  /** matches/utils.py:60-75: a win is 3 points and a loss for the other
      club, a draw 1 point each. */
  method AwardOutcome(t0: Tally, team1: Club, team2: Club, g1: nat, g2: nat) returns (t: Tally)
    requires team1.id in t0.entries && team2.id in t0.entries
    ensures SameKeys(t0, t) && OthersKept(t0, t, team1.id, team2.id)
    ensures team1.id == team2.id ==> t.Get(team1.id) == Outcome(Outcome(t0.Get(team1.id), g1, g2), g2, g1)
    ensures team1.id != team2.id ==>
              t.Get(team1.id) == Outcome(t0.Get(team1.id), g1, g2) && t.Get(team2.id) == Outcome(t0.Get(team2.id), g2, g1)
  {
    t := t0;
    if g1 > g2 {
      t := t.Put(team1.id, t.Get(team1.id).(wins := t.Get(team1.id).wins + 1));
      t := t.Put(team2.id, t.Get(team2.id).(losses := t.Get(team2.id).losses + 1));
      t := t.Put(team1.id, t.Get(team1.id).(points := t.Get(team1.id).points + 3));
    } else if g2 > g1 {
      t := t.Put(team2.id, t.Get(team2.id).(wins := t.Get(team2.id).wins + 1));
      t := t.Put(team1.id, t.Get(team1.id).(losses := t.Get(team1.id).losses + 1));
      t := t.Put(team2.id, t.Get(team2.id).(points := t.Get(team2.id).points + 3));
    } else {
      t := t.Put(team1.id, t.Get(team1.id).(draws := t.Get(team1.id).draws + 1));
      t := t.Put(team2.id, t.Get(team2.id).(draws := t.Get(team2.id).draws + 1));
      t := t.Put(team1.id, t.Get(team1.id).(points := t.Get(team1.id).points + 1));
      t := t.Put(team2.id, t.Get(team2.id).(points := t.Get(team2.id).points + 1));
    }
  }

  /** matches/utils.py:78-83: both goal differences recomputed. */
  method SetGoalDifferences(t0: Tally, team1: Club, team2: Club) returns (t: Tally)
    requires team1.id in t0.entries && team2.id in t0.entries
    ensures SameKeys(t0, t) && OthersKept(t0, t, team1.id, team2.id)
    ensures t.Get(team1.id) == WithDifference(t0.Get(team1.id))
    ensures t.Get(team2.id) == WithDifference(t0.Get(team2.id))
  {
    t := t0;
    t := t.Put(team1.id, t.Get(team1.id).(goalDifference := t.Get(team1.id).goalsFor - t.Get(team1.id).goalsAgainst));
    t := t.Put(team2.id, t.Get(team2.id).(goalDifference := t.Get(team2.id).goalsFor - t.Get(team2.id).goalsAgainst));
  }

  /** One side's statements amount to crediting that side. */
  lemma OneSide(s: Stats, club: Club, scored: nat, conceded: nat)
    ensures WithDifference(Outcome(Counted(s.(club := Some(club)), scored, conceded), scored, conceded))
            == Credit(s, club, scored, conceded)
  {
  }

  /** A club in both slots: its one row gets both sides' statements. */
  lemma BothSides(s: Stats, team1: Club, team2: Club, g1: nat, g2: nat)
    ensures WithDifference(Outcome(Outcome(Counted(Counted(s.(club := Some(team2)), g1, g2), g2, g1), g1, g2), g2, g1))
            == Credit(Credit(s, team1, g1, g2), team2, g2, g1)
  {
  }

  /** Tallies with the same keys, order and rows are equal. */
  lemma TallyEquality(t: Tally, u: Tally)
    requires t.entries.Keys == u.entries.Keys && t.order == u.order
    requires forall k :: k in t.entries ==> t.Get(k) == u.Get(k)
    ensures t == u
  {
    assert t.entries == u.entries;
  }

  /** One pass of the results loop (matches/utils.py:42-83). Every statement
      reads and writes the dictionary entry, so a club named in both slots
      gets both sides' updates on its one row. */
  method CreditResult(stats: Tally, result: MatchResult) returns (t: Tally)
    ensures t == RecordResult(stats, result)
  {
    var team1, team2 := result.fixture.team1, result.fixture.team2;
    var g1, g2 := result.team1Goals, result.team2Goals;
    var named := NameClubs(stats, team1, team2);
    var counted := CountGoals(named, team1, team2, g1, g2);
    var awarded := AwardOutcome(counted, team1, team2, g1, g2);
    t := SetGoalDifferences(awarded, team1, team2);
    ghost var spec := RecordResult(stats, result);
    if team1.id == team2.id {
      BothSides(stats.Get(team1.id), team1, team2, g1, g2);
    } else {
      OneSide(stats.Get(team1.id), team1, g1, g2);
      OneSide(stats.Get(team2.id), team2, g2, g1);
    }
    TallyEquality(t, spec);
  }

  /** One pass of the bookings loop (matches/utils.py:88-95). */
  method CreditBooking(t0: Tally, booking: Booking) returns (t: Tally)
    ensures t == RecordBooking(t0, booking)
  {
    t := t0;
    var club := booking.player.club;
    if booking.cardType == "yellow" {
      t := t.Put(club.id, t.Get(club.id).(yellowCards := t.Get(club.id).yellowCards + 1));
      t := t.Put(club.id, t.Get(club.id).(totalCards := t.Get(club.id).totalCards + 1));
    } else if booking.cardType == "red" {
      t := t.Put(club.id, t.Get(club.id).(redCards := t.Get(club.id).redCards + 1));
      t := t.Put(club.id, t.Get(club.id).(totalCards := t.Get(club.id).totalCards + 3));
    }
  }

  // ---------------------------------------------------------------------------
  // The whole computation

  /** The results loop (matches/utils.py:41-83), from the empty defaultdict. */
  method TallyResults(results: seq<MatchResult>) returns (clubStats: Tally)
    ensures clubStats == RecordResults(results)
  {
    clubStats := EmptyTally;
    var i := 0;
    while i < |results|
      invariant 0 <= i <= |results|
      invariant clubStats == RecordResults(results[..i])
    {
      assert results[..i + 1][..i] == results[..i];
      clubStats := CreditResult(clubStats, results[i]);
      i := i + 1;
    }
    assert results[..i] == results;
  }

  /** The bookings loop (matches/utils.py:86-95). */
  method TallyBookings(t0: Tally, bookings: seq<Booking>) returns (clubStats: Tally)
    ensures clubStats == RecordBookings(t0, bookings)
  {
    clubStats := t0;
    var j := 0;
    while j < |bookings|
      invariant 0 <= j <= |bookings|
      invariant clubStats == RecordBookings(t0, bookings[..j])
    {
      assert bookings[..j + 1][..j] == bookings[..j];
      clubStats := CreditBooking(clubStats, bookings[j]);
      j := j + 1;
    }
    assert bookings[..j] == bookings;
  }

  /** The filter loop (matches/utils.py:97-101): the rows that name a club
      and count a match, in the dictionary's iteration order. */
  method KeepPlayed(clubStats: Tally) returns (tableData: seq<Stats>)
    ensures tableData == Played(clubStats, clubStats.order)
    ensures Named(tableData)
  {
    tableData := [];
    var k := 0;
    while k < |clubStats.order|
      invariant 0 <= k <= |clubStats.order|
      invariant tableData == Played(clubStats, clubStats.order[..k])
      invariant Named(tableData)
    {
      assert clubStats.order[..k + 1][..k] == clubStats.order[..k];
      var stats := clubStats.Get(clubStats.order[k]);
      if stats.club.Some? && stats.matchesPlayed > 0 {
        tableData := tableData + [stats];
      }
      k := k + 1;
    }
    assert clubStats.order[..k] == clubStats.order;
  }

  /** The numbering loop (matches/utils.py:107-108). */
  method AddPositions(sortedTable: seq<Stats>) returns (table: seq<Standing>)
    ensures table == Numbered(sortedTable)
  {
    table := [];
    var n := 0;
    while n < |sortedTable|
      invariant 0 <= n <= |sortedTable|
      invariant table == Numbered(sortedTable[..n])
    {
      assert sortedTable[..n + 1][..n] == sortedTable[..n];
      table := table + [Standing(sortedTable[n], n + 1)];
      n := n + 1;
    }
    assert sortedTable[..n] == sortedTable;
  }

  /** `calculate_table` over the completed results and the bookings, in their
      stored order, with `tb` giving each club name its tie-break value. */
  method CalculateTable(results: seq<MatchResult>, bookings: seq<Booking>, tb: string -> int)
    returns (table: seq<Standing>)
    ensures table == LeagueTableOf(results, bookings, tb)
  {
    var afterResults := TallyResults(results);
    var clubStats := TallyBookings(afterResults, bookings);
    var tableData := KeepPlayed(clubStats);
    var sortedTable := ApplyTiebreakers(tableData, results, tb);
    table := AddPositions(sortedTable);
  }

  // ---------------------------------------------------------------------------
  // What the returned table satisfies

  /** The counters of each row of a table, in table order. */
  function StatsOf(table: seq<Standing>): (rows: seq<Stats>)
    ensures |rows| == |table| && forall i :: 0 <= i < |table| ==> rows[i] == table[i].stats
  {
    seq(|table|, i requires 0 <= i < |table| => table[i].stats)
  }

  lemma NumberedStats(rows: seq<Stats>)
    ensures StatsOf(Numbered(rows)) == rows
  {
  }

  /** The table is the filtered rows rearranged into ascending order of the
      seven-part key, and the positions are 1 to n from the top
      (matches/utils.py:97-108, 118-142). */
  lemma LeagueTableSorted(rs: seq<MatchResult>, bs: seq<Booking>, tb: string -> int)
    ensures var rows, table := TableRows(rs, bs), LeagueTableOf(rs, bs, tb);
      && Named(rows)
      && |table| == |rows|
      && (forall i :: 0 <= i < |table| ==> table[i].position == i + 1)
      && multiset(StatsOf(table)) == multiset(rows)
      && SortedBy(StatsOf(table), RankKey(RowIds(rows), rs, tb))
  {
    TableRowsLaws(rs, bs);
    NumberedStats(ApplyTiebreakers(TableRows(rs, bs), rs, tb));
  }

  /** What the filtered rows satisfy, and a rearrangement of them keeps. */
  ghost predicate ClubRows(rows: seq<Stats>, rs: seq<MatchResult>, bs: seq<Booking>) {
    && Named(rows)
    && NoDuplicates(RowIds(rows))
    && (forall id :: id in RowIds(rows) <==> id in ClubIds(rs))
    && (forall i :: 0 <= i < |rows| ==> RowOf(rows[i], rows[i].club.value.id, rs, bs))
  }

  lemma PermutedIds(filtered: seq<Stats>, rows: seq<Stats>, rs: seq<MatchResult>, bs: seq<Booking>)
    requires ClubRows(filtered, rs, bs) && multiset(rows) == multiset(filtered)
    ensures Named(rows)
    ensures forall i :: 0 <= i < |rows| ==> RowOf(rows[i], rows[i].club.value.id, rs, bs)
    ensures forall id :: id in RowIds(rows) <==> id in ClubIds(rs)
  {
    forall i | 0 <= i < |rows|
      ensures rows[i].club.Some? && RowOf(rows[i], rows[i].club.value.id, rs, bs)
    {
      assert rows[i] in multiset(filtered);
    }
    forall id
      ensures id in RowIds(rows) <==> id in ClubIds(rs)
    {
      if id in RowIds(rows) {
        var i :| 0 <= i < |rows| && RowIds(rows)[i] == id;
        assert rows[i] in multiset(filtered);
        var a :| 0 <= a < |filtered| && filtered[a] == rows[i];
        assert RowIds(filtered)[a] == id;
      }
      if id in ClubIds(rs) {
        var a :| 0 <= a < |filtered| && RowIds(filtered)[a] == id;
        assert filtered[a] in multiset(rows);
        var i :| 0 <= i < |rows| && rows[i] == filtered[a];
        assert RowIds(rows)[i] == id;
      }
    }
  }

  lemma PermutedNoDuplicates(filtered: seq<Stats>, rows: seq<Stats>)
    requires Named(filtered) && NoDuplicates(RowIds(filtered))
    requires Named(rows) && multiset(rows) == multiset(filtered)
    ensures NoDuplicates(RowIds(rows))
  {
    assert Distinct(filtered) by {
      forall a, b | 0 <= a < b < |filtered|
        ensures filtered[a] != filtered[b]
      {
        assert RowIds(filtered)[a] != RowIds(filtered)[b];
      }
    }
    PermutationOfDistinct(filtered, rows);
    forall i, j | 0 <= i < j < |rows|
      ensures RowIds(rows)[i] != RowIds(rows)[j]
    {
      assert rows[i] in multiset(filtered) && rows[j] in multiset(filtered);
      var a :| 0 <= a < |filtered| && filtered[a] == rows[i];
      var b :| 0 <= b < |filtered| && filtered[b] == rows[j];
      assert a != b;
      assert RowIds(filtered)[a] != RowIds(filtered)[b];
    }
  }

  /** The table has one row for each club that plays in at least one
      result and no other row, and every row holds its club's totals over
      the results and the bookings and obeys the accounting laws. */
  lemma LeagueTableClubs(rs: seq<MatchResult>, bs: seq<Booking>, tb: string -> int)
    ensures var rows := StatsOf(LeagueTableOf(rs, bs, tb));
      && ClubRows(rows, rs, bs)
      && (forall i :: 0 <= i < |rows| ==> Consistent(rows[i]))
  {
    var filtered := TableRows(rs, bs);
    var rows := StatsOf(LeagueTableOf(rs, bs, tb));
    LeagueTableSorted(rs, bs, tb);
    TableRowsLaws(rs, bs);
    PermutedIds(filtered, rows, rs, bs);
    PermutedNoDuplicates(filtered, rows);
    forall i | 0 <= i < |rows|
      ensures Consistent(rows[i])
    {
      RowOfConsistent(rows[i], rows[i].club.value.id, rs, bs);
    }
  }

  /** With no completed result the table is empty, whatever bookings exist. */
  lemma NoResultsEmptyTable(bs: seq<Booking>, tb: string -> int)
    ensures LeagueTableOf([], bs, tb) == []
  {
    NoResultsNoTable(bs);
  }

  /** When no fixture pits a club against itself, the head-to-head record a
      table row gets against the other rows is the club's overall points and
      goal difference: every opponent it met has played and so is a row. */
  lemma HeadToHeadIsOverallRecord(rs: seq<MatchResult>, bs: seq<Booking>, row: Stats)
    requires NoSelfMatch(rs)
    requires row in TableRows(rs, bs)
    ensures Named(TableRows(rs, bs)) && row.club.Some?
    ensures HeadToHead(row.club.value.id, RowIds(TableRows(rs, bs)), rs, MeetingPoints) == row.points
    ensures HeadToHead(row.club.value.id, RowIds(TableRows(rs, bs)), rs, MeetingMargin) == row.goalDifference
  {
    var filtered := TableRows(rs, bs);
    TableRowsLaws(rs, bs);
    var a :| 0 <= a < |filtered| && filtered[a] == row;
    var id := row.club.value.id;
    HeadToHeadCoversAllResults(id, RowIds(filtered), rs);
    SumLaws(id, rs);
  }

  /** Hence the fourth and fifth keys never separate two rows that the first
      two keys leave level: their head-to-head points and margins are equal. */
  lemma HeadToHeadNeverBreaksTie(rs: seq<MatchResult>, bs: seq<Booking>, x: Stats, y: Stats)
    requires NoSelfMatch(rs)
    requires x in TableRows(rs, bs) && y in TableRows(rs, bs)
    requires x.points == y.points && x.goalDifference == y.goalDifference
    ensures Named(TableRows(rs, bs)) && x.club.Some? && y.club.Some?
    ensures var opps := RowIds(TableRows(rs, bs));
      && HeadToHead(x.club.value.id, opps, rs, MeetingPoints) == HeadToHead(y.club.value.id, opps, rs, MeetingPoints)
      && HeadToHead(x.club.value.id, opps, rs, MeetingMargin) == HeadToHead(y.club.value.id, opps, rs, MeetingMargin)
  {
    HeadToHeadIsOverallRecord(rs, bs, x);
    HeadToHeadIsOverallRecord(rs, bs, y);
  }

  /** Reading the table downwards: points never increase; on equal points
      goal difference never increases; on equal points and goal difference
      goals for never increase; and, when no club meets itself, on equal
      points, goal difference and goals for the disciplinary points never
      decrease. */
  lemma LeagueTableOrder(rs: seq<MatchResult>, bs: seq<Booking>, tb: string -> int, i: int, j: int)
    requires 0 <= i < j < |LeagueTableOf(rs, bs, tb)|
    ensures var x, y := LeagueTableOf(rs, bs, tb)[i].stats, LeagueTableOf(rs, bs, tb)[j].stats;
      && x.points >= y.points
      && (x.points == y.points ==> x.goalDifference >= y.goalDifference)
      && (x.points == y.points && x.goalDifference == y.goalDifference ==> x.goalsFor >= y.goalsFor)
      && (NoSelfMatch(rs) && x.points == y.points && x.goalDifference == y.goalDifference && x.goalsFor == y.goalsFor
          ==> x.totalCards <= y.totalCards)
  {
    var filtered := TableRows(rs, bs);
    var rows := StatsOf(LeagueTableOf(rs, bs, tb));
    LeagueTableSorted(rs, bs, tb);
    LeagueTableClubs(rs, bs, tb);
    var x, y := rows[i], rows[j];
    var opps := RowIds(filtered);
    assert LexLe(RankKey(opps, rs, tb)(x), RankKey(opps, rs, tb)(y));
    KeyOrder(x, y, opps, rs, tb);
    if NoSelfMatch(rs) && x.points == y.points && x.goalDifference == y.goalDifference && x.goalsFor == y.goalsFor {
      assert x in multiset(filtered) && y in multiset(filtered);
      HeadToHeadIsOverallRecord(rs, bs, x);
      HeadToHeadIsOverallRecord(rs, bs, y);
      LevelKeys(x, y, opps, rs, tb);
    }
  }
}
