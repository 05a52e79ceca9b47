/** The aggregation half of `calculate_table` (matches/utils.py:8-101): completed
    results and bookings are folded into one row of counters per club, and the rows
    of clubs that have played are kept in the order the clubs were first seen.
    The functions here are the reference definition; the method `CalculateTable`
    in module LeagueTable performs the same fold statement by statement. */
module Standings {
  import opened LeagueModels

  /** One club's counters: the dictionary built by the defaultdict factory. */
  datatype Stats = Stats(
    club: Option<Club>,
    matchesPlayed: nat, wins: nat, draws: nat, losses: nat,
    goalsFor: nat, goalsAgainst: nat, goalDifference: int, points: nat,
    yellowCards: nat, redCards: nat, totalCards: nat)

  /** The value a missing key gets: no club and every counter zero. */
  const Blank := Stats(None, 0, 0, 0, 0, 0, 0, 0, 0, 0, 0, 0)

  /** The accounting laws every row obeys: 3 points a win and 1 a draw, every
      match is won, drawn or lost, goal difference is goals for minus goals
      against, and a red card weighs 3 against a yellow card's 1. */
  predicate Consistent(s: Stats) {
    && s.points == 3 * s.wins + s.draws
    && s.matchesPlayed == s.wins + s.draws + s.losses
    && s.goalDifference == s.goalsFor - s.goalsAgainst
    && s.totalCards == s.yellowCards + 3 * s.redCards
  }

  predicate NoDuplicates(ids: seq<nat>) {
    forall i, j :: 0 <= i < j < |ids| ==> ids[i] != ids[j]
  }

  /** The defaultdict keyed by club id. Python dictionaries iterate in insertion
      order, so the keys are kept in `order` as they are first written. */
  datatype Tally = Tally(entries: map<nat, Stats>, order: seq<nat>) {

    ghost predicate Valid() {
      && NoDuplicates(order)
      && (forall id :: id in entries <==> id in order)
    }

    /** Reading a key: a missing key reads as the blank row. */
    function Get(id: nat): Stats {
      if id in entries then entries[id] else Blank
    }

    /** Writing a key: a new key goes to the end of the iteration order. */
    function Put(id: nat, s: Stats): (t: Tally)
      ensures Valid() ==> t.Valid()
      ensures t.Get(id) == s && forall k :: k != id ==> t.Get(k) == Get(k)
      ensures t.entries.Keys == entries.Keys + {id}
      ensures |order| <= |t.order| && t.order[..|order|] == order
    {
      Tally(entries[id := s], if id in entries then order else order + [id])
    }
  }

  const EmptyTally := Tally(map[], [])

  /** One club's side of a result: it scored `scored` and conceded `conceded`
      (matches/utils.py:46-83 for either team). */
  function Credit(s: Stats, club: Club, scored: nat, conceded: nat): Stats
  {
    s.(club := Some(club),
       matchesPlayed := s.matchesPlayed + 1,
       goalsFor := s.goalsFor + scored,
       goalsAgainst := s.goalsAgainst + conceded,
       wins := s.wins + (if scored > conceded then 1 else 0),
       losses := s.losses + (if scored < conceded then 1 else 0),
       draws := s.draws + (if scored == conceded then 1 else 0),
       points := s.points + (if scored > conceded then 3 else if scored == conceded then 1 else 0),
       goalDifference := (s.goalsFor + scored) - (s.goalsAgainst + conceded))
  }

  /** Folds one result into the tally: the first-named club is credited first. */
  function RecordResult(t: Tally, r: MatchResult): Tally {
    var home, away := r.fixture.team1, r.fixture.team2;
    var t1 := t.Put(home.id, Credit(t.Get(home.id), home, r.team1Goals, r.team2Goals));
    t1.Put(away.id, Credit(t1.Get(away.id), away, r.team2Goals, r.team1Goals))
  }

  /** Folds the results in order. */
  function RecordResults(rs: seq<MatchResult>): Tally {
    if rs == [] then EmptyTally else RecordResult(RecordResults(rs[..|rs| - 1]), rs[|rs| - 1])
  }

  /** Folds one booking: a yellow card counts 1, a red card 3, any other stored
      card text is ignored (matches/utils.py:88-95). */
  function RecordBooking(t: Tally, b: Booking): Tally {
    var id := b.player.club.id;
    var s := t.Get(id);
    if b.cardType == "yellow" then
      t.Put(id, s.(yellowCards := s.yellowCards + 1, totalCards := s.totalCards + 1))
    else if b.cardType == "red" then
      t.Put(id, s.(redCards := s.redCards + 1, totalCards := s.totalCards + 3))
    else t
  }

  function RecordBookings(t: Tally, bs: seq<Booking>): Tally {
    if bs == [] then t else RecordBooking(RecordBookings(t, bs[..|bs| - 1]), bs[|bs| - 1])
  }

  /** A row makes the table when it names a club and that club has played. */
  predicate Kept(s: Stats) {
    s.club.Some? && s.matchesPlayed > 0
  }

  /** The kept rows for the keys `ids`, in that order (matches/utils.py:97-101). */
  function Played(t: Tally, ids: seq<nat>): seq<Stats> {
    if ids == [] then []
    else Played(t, ids[..|ids| - 1]) + (if Kept(t.Get(ids[|ids| - 1])) then [t.Get(ids[|ids| - 1])] else [])
  }

  /** The rows the table is built from: every result, then every booking, then
      the kept rows in insertion order. */
  function TableRows(rs: seq<MatchResult>, bs: seq<Booking>): seq<Stats> {
    var t := RecordBookings(RecordResults(rs), bs);
    Played(t, t.order)
  }

  // ---------------------------------------------------------------------------
  // Per-club sums over the results

  /** The measures of one side of a result, by the goals it scored and conceded. */
  function Once(scored: int, conceded: int): int { 1 }
  function Won(scored: int, conceded: int): int { if scored > conceded then 1 else 0 }
  function Drawn(scored: int, conceded: int): int { if scored == conceded then 1 else 0 }
  function Lost(scored: int, conceded: int): int { if scored < conceded then 1 else 0 }
  function Scored(scored: int, conceded: int): int { scored }
  function Conceded(scored: int, conceded: int): int { conceded }
  function Margin(scored: int, conceded: int): int { scored - conceded }

  /** What one side of a result is worth in points: 3 for a win, 1 for a draw. */
  function SidePoints(scored: int, conceded: int): int {
    if scored > conceded then 3 else if scored == conceded then 1 else 0
  }

  /** Measure `f` of club `id`'s part in result `r`: a club named in both
      slots is counted once per slot, as the fold credits it twice. */
  function SlotSum(id: nat, r: MatchResult, f: (int, int) -> int): int {
    (if r.fixture.team1.id == id then f(r.team1Goals, r.team2Goals) else 0)
    + (if r.fixture.team2.id == id then f(r.team2Goals, r.team1Goals) else 0)
  }

  /** Measure `f` of club `id`'s part in every result of `rs`. */
  function Sum(id: nat, rs: seq<MatchResult>, f: (int, int) -> int): int {
    if rs == [] then 0 else Sum(id, rs[..|rs| - 1], f) + SlotSum(id, rs[|rs| - 1], f)
  }

  /** The ids of the clubs that play in at least one result. */
  function ClubIds(rs: seq<MatchResult>): set<nat> {
    if rs == [] then {}
    else ClubIds(rs[..|rs| - 1]) + {rs[|rs| - 1].fixture.team1.id, rs[|rs| - 1].fixture.team2.id}
  }

  /** A club that plays in no result has nothing summed for it. */
  lemma {:induction false} AbsentClubSumsNothing(id: nat, rs: seq<MatchResult>, f: (int, int) -> int)
    requires id !in ClubIds(rs)
    ensures Sum(id, rs, f) == 0
  {
    if rs != [] {
      AbsentClubSumsNothing(id, rs[..|rs| - 1], f);
    }
  }

  /** A club that plays in some result has played at least once. */
  lemma {:induction false} PresentClubHasPlayed(id: nat, rs: seq<MatchResult>)
    requires id in ClubIds(rs)
    ensures Sum(id, rs, Once) >= 1
  {
    var prev := rs[..|rs| - 1];
    if id in ClubIds(prev) {
      PresentClubHasPlayed(id, prev);
      SumOfOnceNonNegative(id, prev);
    } else {
      SumOfOnceNonNegative(id, prev);
    }
  }

  lemma {:induction false} SumOfOnceNonNegative(id: nat, rs: seq<MatchResult>)
    ensures Sum(id, rs, Once) >= 0
  {
    if rs != [] {
      SumOfOnceNonNegative(id, rs[..|rs| - 1]);
    }
  }

  /** Summed over any results, a club's points are 3 per win and 1 per draw,
      its matches are its wins, draws and losses, and its goal margin is its
      goals for minus its goals against. */
  lemma {:induction false} SumLaws(id: nat, rs: seq<MatchResult>)
    ensures Sum(id, rs, SidePoints) == 3 * Sum(id, rs, Won) + Sum(id, rs, Drawn)
    ensures Sum(id, rs, Once) == Sum(id, rs, Won) + Sum(id, rs, Drawn) + Sum(id, rs, Lost)
    ensures Sum(id, rs, Margin) == Sum(id, rs, Scored) - Sum(id, rs, Conceded)
  {
    if rs != [] {
      SumLaws(id, rs[..|rs| - 1]);
    }
  }

  // ---------------------------------------------------------------------------
  // What the fold establishes

  /** Two rows agree on everything the results determine. */
  predicate SameRecord(a: Stats, b: Stats) {
    && a.club == b.club && a.matchesPlayed == b.matchesPlayed
    && a.wins == b.wins && a.draws == b.draws && a.losses == b.losses
    && a.goalsFor == b.goalsFor && a.goalsAgainst == b.goalsAgainst
    && a.goalDifference == b.goalDifference && a.points == b.points
  }

  /** A row holding the given counts, its goal difference computed from its
      goals, and no cards yet. */
  predicate Counts(s: Stats, played: int, wins: int, draws: int, losses: int, scored: int, conceded: int, points: int) {
    && s.matchesPlayed == played && s.wins == wins && s.draws == draws && s.losses == losses
    && s.goalsFor == scored && s.goalsAgainst == conceded
    && s.goalDifference == scored - conceded && s.points == points
    && s.yellowCards == 0 && s.redCards == 0 && s.totalCards == 0
  }

  /** The row of club `id` after results `rs`: it names the club and holds
      the club's sums over `rs`. */
  predicate RowAfter(s: Stats, id: nat, rs: seq<MatchResult>) {
    && s.club.Some? && s.club.value.id == id
    && Counts(s, Sum(id, rs, Once), Sum(id, rs, Won), Sum(id, rs, Drawn), Sum(id, rs, Lost),
              Sum(id, rs, Scored), Sum(id, rs, Conceded), Sum(id, rs, SidePoints))
  }

  ghost predicate TallyAfter(t: Tally, rs: seq<MatchResult>) {
    && t.Valid()
    && (forall id :: id in t.entries <==> id in ClubIds(rs))
    && (forall id :: id in t.entries ==> RowAfter(t.entries[id], id, rs))
  }

  /** A club that is not in result `r` keeps its row. */
  lemma RecordResultElsewhere(t: Tally, r: MatchResult, id: nat)
    requires !Involves(r, id)
    ensures RecordResult(t, r).Get(id) == t.Get(id)
  {
  }

  /** The row of a club that plays in result `r`, after `r`: it names the
      club and each count has grown by the club's part in `r`. */
  lemma RecordResultRow(t: Tally, r: MatchResult, id: nat,
                        played: int, wins: int, draws: int, losses: int, scored: int, conceded: int, points: int)
    requires Counts(t.Get(id), played, wins, draws, losses, scored, conceded, points)
    requires Involves(r, id)
    ensures var after := RecordResult(t, r).Get(id);
      && after.club.Some? && after.club.value.id == id
      && Counts(after, played + SlotSum(id, r, Once), wins + SlotSum(id, r, Won),
                draws + SlotSum(id, r, Drawn), losses + SlotSum(id, r, Lost),
                scored + SlotSum(id, r, Scored), conceded + SlotSum(id, r, Conceded),
                points + SlotSum(id, r, SidePoints))
  {
  }

  /** Club `id`'s row after the last result of `rs`, from its row before it. */
  lemma RecordResultStepRow(t: Tally, rs: seq<MatchResult>, id: nat)
    requires rs != []
    requires id in t.entries ==> RowAfter(t.entries[id], id, rs[..|rs| - 1])
    requires id !in t.entries ==> id !in ClubIds(rs[..|rs| - 1])
    requires id in RecordResult(t, rs[|rs| - 1]).entries
    ensures RowAfter(RecordResult(t, rs[|rs| - 1]).entries[id], id, rs)
  {
    var prev, r := rs[..|rs| - 1], rs[|rs| - 1];
    if Involves(r, id) {
      if id !in t.entries {
        AbsentClubSumsNothing(id, prev, Once);
        AbsentClubSumsNothing(id, prev, Won);
        AbsentClubSumsNothing(id, prev, Drawn);
        AbsentClubSumsNothing(id, prev, Lost);
        AbsentClubSumsNothing(id, prev, Scored);
        AbsentClubSumsNothing(id, prev, Conceded);
        AbsentClubSumsNothing(id, prev, SidePoints);
      }
      RecordResultRow(t, r, id, Sum(id, prev, Once), Sum(id, prev, Won), Sum(id, prev, Drawn),
        Sum(id, prev, Lost), Sum(id, prev, Scored), Sum(id, prev, Conceded), Sum(id, prev, SidePoints));
    } else {
      RecordResultElsewhere(t, r, id);
    }
  }

  lemma RecordResultStep(rs: seq<MatchResult>)
    requires rs != []
    requires TallyAfter(RecordResults(rs[..|rs| - 1]), rs[..|rs| - 1])
    ensures TallyAfter(RecordResults(rs), rs)
  {
    var prev, r := rs[..|rs| - 1], rs[|rs| - 1];
    var t := RecordResults(prev);
    var t2 := RecordResults(rs);
    assert t2 == RecordResult(t, r);
    forall id | id in t2.entries
      ensures RowAfter(t2.entries[id], id, rs)
    {
      RecordResultStepRow(t, rs, id);
    }
  }

  /** After the results are folded, the tally has a row for exactly the clubs
      that played, and each row names its own club, holds that club's match,
      win, draw, loss, goal and point sums over every result, a goal
      difference equal to goals for minus goals against, and no cards yet
      (matches/utils.py:41-83). */
  lemma {:induction false} RecordResultsLaws(rs: seq<MatchResult>)
    ensures TallyAfter(RecordResults(rs), rs)
  {
    if rs != [] {
      RecordResultsLaws(rs[..|rs| - 1]);
      RecordResultStep(rs);
    }
  }

  // ---------------------------------------------------------------------------
  // Bookings

  /** The number of bookings in `bs` of card kind `kind` given to players of club `id`. */
  function CardCount(id: nat, bs: seq<Booking>, kind: string): nat {
    if bs == [] then 0
    else
      var b := bs[|bs| - 1];
      CardCount(id, bs[..|bs| - 1], kind) + (if b.player.club.id == id && b.cardType == kind then 1 else 0)
  }

  /** What folding bookings `bs` into tally `t0` leaves: no key is lost and
      the old keys keep their place in the iteration order, no result counter
      of any club changes, and each club's cards have grown by its yellow
      cards (1 each toward the total) and red cards (3 each). */
  ghost predicate BookedFrom(t0: Tally, t: Tally, bs: seq<Booking>) {
    && (t0.Valid() ==> t.Valid())
    && (forall id :: id in t0.entries ==> id in t.entries)
    && |t0.order| <= |t.order| && t.order[..|t0.order|] == t0.order
    && (forall i :: |t0.order| <= i < |t.order| ==> t.order[i] !in t0.entries)
    && (forall id :: SameRecord(t.Get(id), t0.Get(id)))
    && (forall id :: t.Get(id).yellowCards == t0.Get(id).yellowCards + CardCount(id, bs, "yellow"))
    && (forall id :: t.Get(id).redCards == t0.Get(id).redCards + CardCount(id, bs, "red"))
    && (forall id :: t.Get(id).totalCards
                     == t0.Get(id).totalCards + CardCount(id, bs, "yellow") + 3 * CardCount(id, bs, "red"))
  }

  /** One booking changes at most the cards of the booked player's club. */
  lemma RecordBookingRow(t: Tally, b: Booking, id: nat)
    ensures var after, before := RecordBooking(t, b).Get(id), t.Get(id);
      var yellow := if b.player.club.id == id && b.cardType == "yellow" then 1 else 0;
      var red := if b.player.club.id == id && b.cardType == "red" then 1 else 0;
      && SameRecord(after, before)
      && after.yellowCards == before.yellowCards + yellow
      && after.redCards == before.redCards + red
      && after.totalCards == before.totalCards + yellow + 3 * red
  {
  }

  lemma RecordBookingStep(t0: Tally, bs: seq<Booking>)
    requires bs != []
    requires BookedFrom(t0, RecordBookings(t0, bs[..|bs| - 1]), bs[..|bs| - 1])
    ensures BookedFrom(t0, RecordBookings(t0, bs), bs)
  {
    var prev, b := bs[..|bs| - 1], bs[|bs| - 1];
    var t := RecordBookings(t0, prev);
    var t2 := RecordBookings(t0, bs);
    assert t2 == RecordBooking(t, b);
    assert t2.order[..|t0.order|] == t0.order by {
      assert t2.order[..|t.order|] == t.order;
    }
    forall id
      ensures SameRecord(t2.Get(id), t0.Get(id))
      ensures t2.Get(id).yellowCards == t0.Get(id).yellowCards + CardCount(id, bs, "yellow")
      ensures t2.Get(id).redCards == t0.Get(id).redCards + CardCount(id, bs, "red")
      ensures t2.Get(id).totalCards
              == t0.Get(id).totalCards + CardCount(id, bs, "yellow") + 3 * CardCount(id, bs, "red")
    {
      RecordBookingRow(t, b, id);
    }
  }

  /** The booking fold (matches/utils.py:88-95): yellow counts 1 toward the
      total and red 3, any other card text is ignored, and nothing but cards
      changes. */
  lemma {:induction false} RecordBookingsLaws(t0: Tally, bs: seq<Booking>)
    ensures BookedFrom(t0, RecordBookings(t0, bs), bs)
  {
    if bs == [] {
      assert RecordBookings(t0, bs).order[..|t0.order|] == t0.order;
    } else {
      RecordBookingsLaws(t0, bs[..|bs| - 1]);
      RecordBookingStep(t0, bs);
    }
  }

  /** A card of a kind outside the form's choices leaves the tally as it was. */
  lemma OtherCardIgnored(t: Tally, b: Booking)
    requires b.cardType !in CardChoices
    ensures RecordBooking(t, b) == t
  {
  }

  // ---------------------------------------------------------------------------
  // The kept rows

  /** Keys whose rows are not kept add nothing to the table. */
  lemma {:induction false} PlayedSkipsUnkept(t: Tally, ids: seq<nat>, extra: seq<nat>)
    requires forall i :: 0 <= i < |extra| ==> !Kept(t.Get(extra[i]))
    ensures Played(t, ids + extra) == Played(t, ids)
  {
    if extra == [] {
      assert ids + extra == ids;
    } else {
      var shorter := extra[..|extra| - 1];
      assert (ids + extra)[..|ids + extra| - 1] == ids + shorter;
      PlayedSkipsUnkept(t, ids, shorter);
    }
  }

  /** When every key's row is kept, the table holds those rows in key order. */
  lemma {:induction false} PlayedAllKept(t: Tally, ids: seq<nat>)
    requires forall i :: 0 <= i < |ids| ==> Kept(t.Get(ids[i]))
    ensures |Played(t, ids)| == |ids|
    ensures forall i :: 0 <= i < |ids| ==> Played(t, ids)[i] == t.Get(ids[i])
  {
    if ids != [] {
      PlayedAllKept(t, ids[..|ids| - 1]);
    }
  }

  /** Keys the bookings add name no club, so the table is built from the old keys. */
  lemma PlayedOldKeys(t0: Tally, t: Tally, bs: seq<Booking>)
    requires BookedFrom(t0, t, bs)
    ensures Played(t, t.order) == Played(t, t0.order)
  {
    var ids, extra := t0.order, t.order[|t0.order|..];
    assert t.order == ids + extra;
    forall i | 0 <= i < |extra|
      ensures !Kept(t.Get(extra[i]))
    {
      assert extra[i] == t.order[|ids| + i];
      assert SameRecord(t.Get(extra[i]), t0.Get(extra[i]));
    }
    PlayedSkipsUnkept(t, ids, extra);
  }

  /** Every row names a club. */
  predicate Named(rows: seq<Stats>) {
    forall i :: 0 <= i < |rows| ==> rows[i].club.Some?
  }

  /** The ids of the clubs the rows name, in row order. */
  function RowIds(rows: seq<Stats>): (ids: seq<nat>)
    requires Named(rows)
    ensures |ids| == |rows| && forall i :: 0 <= i < |rows| ==> ids[i] == rows[i].club.value.id
  {
    seq(|rows|, i requires 0 <= i < |rows| => rows[i].club.value.id)
  }

  /** A finished row of club `id`: the club's sums over the results, its goal
      difference from its goals, and its cards from the bookings. */
  predicate RowOf(s: Stats, id: nat, rs: seq<MatchResult>, bs: seq<Booking>) {
    && s.club.Some? && s.club.value.id == id
    && s.matchesPlayed == Sum(id, rs, Once)
    && s.wins == Sum(id, rs, Won) && s.draws == Sum(id, rs, Drawn) && s.losses == Sum(id, rs, Lost)
    && s.goalsFor == Sum(id, rs, Scored) && s.goalsAgainst == Sum(id, rs, Conceded)
    && s.goalDifference == Sum(id, rs, Scored) - Sum(id, rs, Conceded)
    && s.points == Sum(id, rs, SidePoints)
    && s.yellowCards == CardCount(id, bs, "yellow") && s.redCards == CardCount(id, bs, "red")
    && s.totalCards == CardCount(id, bs, "yellow") + 3 * CardCount(id, bs, "red")
  }

  lemma TableRowsFromTally(rs: seq<MatchResult>, bs: seq<Booking>, id: nat)
    requires id in RecordResults(rs).entries
    ensures var s := RecordBookings(RecordResults(rs), bs).Get(id);
      RowOf(s, id, rs, bs) && Kept(s)
  {
    var t0 := RecordResults(rs);
    RecordResultsLaws(rs);
    RecordBookingsLaws(t0, bs);
    var s0, s := t0.Get(id), RecordBookings(t0, bs).Get(id);
    assert RowAfter(s0, id, rs);
    assert SameRecord(s, s0);
    PresentClubHasPlayed(id, rs);
  }

  lemma TableRowsOldKeys(rs: seq<MatchResult>, bs: seq<Booking>)
    ensures TableRows(rs, bs) == Played(RecordBookings(RecordResults(rs), bs), RecordResults(rs).order)
  {
    var t0 := RecordResults(rs);
    RecordBookingsLaws(t0, bs);
    PlayedOldKeys(t0, RecordBookings(t0, bs), bs);
  }

  /** The rows `calculate_table` sorts (matches/utils.py:41-101): one row for
      each club that plays in at least one result and for no other, each
      holding that club's sums over the results and its cards. */
  lemma TableRowsLaws(rs: seq<MatchResult>, bs: seq<Booking>)
    ensures var rows := TableRows(rs, bs);
      && Named(rows)
      && NoDuplicates(RowIds(rows))
      && (forall id :: id in RowIds(rows) <==> id in ClubIds(rs))
      && (forall i :: 0 <= i < |rows| ==> RowOf(rows[i], rows[i].club.value.id, rs, bs) && Kept(rows[i]))
  {
    var t0 := RecordResults(rs);
    var t := RecordBookings(t0, bs);
    RecordResultsLaws(rs);
    var ids := t0.order;
    TableRowsOldKeys(rs, bs);
    forall i | 0 <= i < |ids|
      ensures Kept(t.Get(ids[i])) && RowOf(t.Get(ids[i]), ids[i], rs, bs)
    {
      TableRowsFromTally(rs, bs, ids[i]);
    }
    PlayedAllKept(t, ids);
    assert RowIds(TableRows(rs, bs)) == ids;
  }

  /** With no results the table is empty, whatever bookings exist. */
  lemma NoResultsNoTable(bs: seq<Booking>)
    ensures TableRows([], bs) == []
  {
    var t0 := RecordResults([]);
    var t := RecordBookings(t0, bs);
    RecordBookingsLaws(t0, bs);
    forall i | 0 <= i < |t.order|
      ensures !Kept(t.Get(t.order[i]))
    {
      assert SameRecord(t.Get(t.order[i]), t0.Get(t.order[i]));
    }
    PlayedSkipsUnkept(t, [], t.order);
    assert [] + t.order == t.order;
  }

  /** Every finished row obeys the accounting laws: points are 3 per win and
      1 per draw, matches are wins plus draws plus losses, goal difference is
      goals for minus goals against, and total cards are yellow plus 3 per red. */
  lemma RowOfConsistent(s: Stats, id: nat, rs: seq<MatchResult>, bs: seq<Booking>)
    requires RowOf(s, id, rs, bs)
    ensures Consistent(s)
  {
    SumLaws(id, rs);
  }

  /** A result between two different clubs is worth 3 points and a win to
      its winner and a loss to the other club, and 1 point and a draw to each
      club when it is drawn; it always counts one match for each club. */
  lemma ResultCredit(r: MatchResult)
    requires r.fixture.team1.id != r.fixture.team2.id
    ensures var home, away := r.fixture.team1.id, r.fixture.team2.id;
      && SlotSum(home, r, Once) == 1 && SlotSum(away, r, Once) == 1
      && SlotSum(home, r, Scored) == r.team1Goals && SlotSum(home, r, Conceded) == r.team2Goals
      && SlotSum(away, r, Scored) == r.team2Goals && SlotSum(away, r, Conceded) == r.team1Goals
      && (Winner(r).Some? ==>
            var w := Winner(r).value.id;
            var l := if w == home then away else home;
            SlotSum(w, r, Won) == 1 && SlotSum(w, r, SidePoints) == 3
            && SlotSum(l, r, Lost) == 1 && SlotSum(l, r, SidePoints) == 0)
      && (Winner(r).None? ==>
            SlotSum(home, r, Drawn) == 1 && SlotSum(away, r, Drawn) == 1
            && SlotSum(home, r, SidePoints) == 1 && SlotSum(away, r, SidePoints) == 1)
  {
  }
}
