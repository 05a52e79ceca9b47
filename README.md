# League table engine

A model of the standings engine of a Django football-league site. The engine
has four parts:

- `calculate_table` folds every match result and every booking into a
  dictionary of per-club counters. It keeps the rows of clubs that have
  played, sorts them with `apply_tiebreakers` and numbers them.
- `apply_tiebreakers` sorts by a seven-part key: points, goal difference,
  goals for, head-to-head points, head-to-head goal difference,
  disciplinary points and a per-name tie-break value.
- `get_head_to_head_record` sums a club's points and goal margin over its
  meetings with every other club in the table.
- `get_recent_form` turns a club's latest results into a string of W, D and L.

The model also covers the small rules these rely on in `matches/models.py`:
the same-club check of a fixture, its two teams, the winner of a result and
the text label of a goal. It also covers the error collection of the
`validate_form_data` endpoint in `matches/views.py`.

Modules:

- `Text` (`text.dfy`): decimal rendering of natural numbers, as f-strings
  print the minute and the entry number.
- `LeagueModels` (`models.dfy`): the records and the rules of
  `matches/models.py`. Clubs are identified by their primary key, as Django
  compares model instances.
- `Sorting` (`sorting.dfy`): Python's tuple order and its stable `sorted`.
- `Standings` (`standings.dfy`): the reference definition of the fold.
  - `Tally` is the defaultdict, keyed by club id, with its insertion order.
  - `RecordResult` and `RecordBooking` fold one record.
  - `TableRows` gives the kept rows.
  - `Sum` gives a club's totals over the results.
  - Lemmas tie each row to those totals.
- `Tiebreak` (`tiebreak.dfy`): the head-to-head record (a method with the
  source's nested loops and six counters, proved against a fold), the sort
  key and the sort.
- `LeagueTable` (`table.dfy`): `calculate_table` as statements.
  - Each block of the results loop body is a method on the tally:
    - `NameClubs` (lines 46-47);
    - `CountGoals` (50-57);
    - `AwardOutcome` (60-75);
    - `SetGoalDifferences` (78-83).
  - The loops over results, bookings, rows and positions are methods with
    invariants.
  - `CalculateTable` is proved equal to the reference `LeagueTableOf`.
  - The properties of the returned table follow as lemmas.
- `Form` (`form.dfy`): `get_recent_form` as a loop, proved against the
  per-result letter.
- `FormValidation` (`validation.dfy`): the error list of `validate_form_data`
  as two loops, proved against a per-entry error function.

Where the code and the description of the system differ, the model follows
the code:

- `calculate_table` reads every stored `MatchResult`. It does not test
  `is_completed` (matches/utils.py:38).
- A head-to-head draw is worth 1 point. The draw counters are read when the
  total is formed (matches/utils.py:192), so they are not dead code.
- The head-to-head goal margin is added on wins and on losses only. A draw
  adds nothing, which is the same as adding its zero margin.

A club whose players are booked but which has played no result gets a
defaultdict row with no club. The filter drops that row
(`Standings.PlayedOldKeys`). A fixture pitting a club against itself is not
assumed away. The fold credits such a club twice on its one row, as the
dictionary code does (`LeagueTable.CreditResult`). The lemmas that need
distinct clubs take `NoSelfMatch` (every fixture passes `Fixture.clean`) as
a hypothesis.

## Model

| member | source | states |
|---|---|---|
| Text.NatToString | matches/models.py:147 | the minute is printed as decimal digits, at least one, with no leading zero |
| Text.NatToStringRoundTrip | matches/models.py:147 | reading the printed digits back gives the number printed |
| Text.NatToStringInjective | matches/models.py:147 | different minutes print differently |
| LeagueModels.Clean | matches/models.py:61-65 | a fixture is rejected exactly when both teams are the same club, with the message "A club cannot play against itself." |
| LeagueModels.TeamsInvolved | matches/models.py:67-69 | two teams, team1 first and team2 second |
| LeagueModels.InvolvesIsTeamsInvolved | matches/models.py:67-69 | a club plays in a result exactly when it is one of the fixture's two teams |
| LeagueModels.Winner | matches/models.py:91-98 | team1 when team1 scored more, team2 when team2 scored more, and None exactly when the scores are level |
| LeagueModels.WonBy | matches/utils.py:209 | `result.winner == club` holds exactly when the club is team1 and team1 scored more, or is team2 and team2 scored more |
| LeagueModels.WinnerIsATeam | matches/models.py:91-98 | between different clubs, the winner is one of the teams; a team is the winner exactly when it scored more |
| LeagueModels.GoalTypeMarker | matches/models.py:137-141 | " (OG)" for an own goal whatever the penalty flag; otherwise " (P)" for a penalty; otherwise nothing |
| LeagueModels.AssistText | matches/models.py:143-145 | empty exactly when there is no assist; otherwise ", assisted by " and the assistant's full name |
| LeagueModels.GoalLabel | matches/models.py:136-147 | the label starts with the scorer's full name and ends with the minute's closing quote, the marker, ")" and the assist text |
| LeagueModels.OwnGoalOverridesPenalty | matches/models.py:138-141 | for an own goal, the penalty flag does not change the label |
| LeagueModels.GoalLabelDeterminesMinute | matches/models.py:147 | two goals with the same scorer, assist and markers have the same label only if their minutes are equal |
| Sorting.LexLeTotal | matches/utils.py:140 | any two key tuples are comparable |
| Sorting.LexLeTransitive | matches/utils.py:140 | tuple order is transitive |
| Sorting.LexLeAntisymmetric | matches/utils.py:140 | tuples that each sort no later than the other are equal |
| Sorting.InsertBy | matches/utils.py:142 | inserting into a sorted sequence keeps it sorted and adds exactly that element |
| Sorting.SortBy | matches/utils.py:142 | `sorted` returns a rearrangement of its input (same multiset, same length) in ascending key order |
| Sorting.SortedUnique | matches/utils.py:142 | when no two elements share a key, any two sorted rearrangements of the same elements are equal |
| Sorting.PermutationOfDistinct | matches/utils.py:142 | a rearrangement of a sequence without repeats has no repeats |
| Standings.Tally.Put | matches/utils.py:21-35 | the written key reads back the new row and every other key its old row; the key set gains the written key; the iteration order keeps its old keys as a prefix; each key stays listed once and exactly when present |
| Standings.AbsentClubSumsNothing | matches/utils.py:41-83 | a club that plays in no result has every total zero |
| Standings.PresentClubHasPlayed | matches/utils.py:50-51 | a club that plays in some result has played at least one match |
| Standings.SumLaws | matches/utils.py:60-83 | over any results, points = 3 × wins + draws, matches = wins + draws + losses, margin = goals for − goals against |
| Standings.RecordResultElsewhere | matches/utils.py:41-83 | a result leaves the row of every club not in it unchanged |
| Standings.RecordResultRow | matches/utils.py:46-83 | a result names its club on the row, and each counter grows by the club's part in that result; the goal difference is again goals for − goals against |
| Standings.RecordResultsLaws | matches/utils.py:41-83 | after the results loop there is a row for exactly the clubs that played; each row names its club and holds that club's totals, with goal difference = goals for − goals against and no cards |
| Standings.RecordBookingRow | matches/utils.py:88-95 | a booking changes only the booked club's cards: yellow +1 yellow and +1 total, red +1 red and +3 total |
| Standings.RecordBookingsLaws | matches/utils.py:88-95 | after the bookings loop, no result counter of any club has changed, no key is lost, old keys keep their order, and each club's cards are its yellow count, red count, and yellow + 3 × red in total |
| Standings.OtherCardIgnored | matches/utils.py:90-95 | a card text outside the choices "yellow" and "red" changes nothing |
| Standings.PlayedSkipsUnkept | matches/utils.py:97-101 | keys whose row names no club or counts no match add no row |
| Standings.PlayedAllKept | matches/utils.py:97-101 | when every key's row is kept, the rows come in key order, one per key |
| Standings.PlayedOldKeys | matches/utils.py:97-101 | keys created only by bookings never reach the table |
| Standings.TableRowsLaws | matches/utils.py:41-101 | the kept rows name distinct clubs, exactly the clubs that play in at least one result, and each holds that club's totals over the results and the bookings |
| Standings.NoResultsNoTable | matches/utils.py:97-101 | with no results there are no rows, whatever the bookings |
| Standings.RowOfConsistent | matches/utils.py:50-95 | every finished row obeys points = 3W + D, matches = W + D + L, GD = GF − GA and total cards = Y + 3R |
| Standings.ResultCredit | matches/utils.py:60-75 | between different clubs a result is one match to each; the winner gets a win and 3 points and the other club a loss; a draw gives each club a draw and 1 point |
| Tiebreak.GetHeadToHeadRecord | matches/utils.py:145-195 | the six counters combine into the club's meeting points and margin summed over every other row's club |
| Tiebreak.MeetingValue | matches/utils.py:172-189 | a meeting is worth 3, 1 or 0 points as the club scored more, the same or less; its signed margin is added; the value is the same whichever slot the club holds |
| Tiebreak.HeadToHeadSnoc | matches/utils.py:158-189 | one more result adds its meeting once per opponent it is a meeting with |
| Tiebreak.OneMeetingCount | matches/utils.py:158-170 | with each opponent listed once, a result between different clubs is counted once if the club plays in it and its opponent is listed, and otherwise not at all |
| Tiebreak.HeadToHeadCoversAllResults | matches/utils.py:158-195 | when every club of the results is an opponent and no club meets itself, the head-to-head points and margin are the club's overall points and goal difference |
| Tiebreak.TiebreakerKey | matches/utils.py:118-140 | a seven-part key whose negated points and goals are never positive and whose last part is the club's tie-break value; what its order means is stated by `KeyOrder` |
| Tiebreak.KeyOrder | matches/utils.py:140 | a row sorted no later than another has at least its points; on equal points at least its goal difference; then at least its goals; level on all five first keys, no more cards |
| Tiebreak.LevelKeys | matches/utils.py:140 | rows level on points, goal difference, goals and head-to-head share the first five key components |
| Tiebreak.ApplyTiebreakers | matches/utils.py:113-142 | the result is a rearrangement of the rows in ascending order of the seven-part key |
| Tiebreak.ApplyTiebreakersDetermined | matches/utils.py:136-142 | with unique club names and a tie-break value that tells names apart, the sorted order is the only one |
| LeagueTable.Numbered | matches/utils.py:107-108 | the k-th row gets position k + 1, rows unchanged |
| LeagueTable.NameClubs | matches/utils.py:46-47 | both clubs' entries exist afterwards, created team1 first, each naming its club; a club in both slots ends up naming team2; no other row changes |
| LeagueTable.CountGoals | matches/utils.py:50-57 | each side gets one match and its goals for and against; a club in both slots gets both sides' counts; nothing else changes |
| LeagueTable.AwardOutcome | matches/utils.py:60-75 | win, draw and loss counters and points move by the outcome each side saw; a club in both slots gets both; nothing else changes |
| LeagueTable.SetGoalDifferences | matches/utils.py:78-83 | both clubs' goal difference becomes goals for − goals against |
| LeagueTable.OneSide | matches/utils.py:46-83 | one side's four blocks together credit that side as the fold does |
| LeagueTable.BothSides | matches/utils.py:46-83 | a club in both slots gets both sides' credits on its one row |
| LeagueTable.CreditResult | matches/utils.py:42-83 | one pass of the results loop yields the tally the reference fold gives |
| LeagueTable.CreditBooking | matches/utils.py:89-95 | one pass of the bookings loop yields the tally the reference fold gives |
| LeagueTable.TallyResults | matches/utils.py:41-83 | the results loop yields the reference fold over all results |
| LeagueTable.TallyBookings | matches/utils.py:88-95 | the bookings loop yields the reference fold over all bookings |
| LeagueTable.KeepPlayed | matches/utils.py:98-101 | the filter loop keeps exactly the rows that name a club and count a match, in iteration order |
| LeagueTable.AddPositions | matches/utils.py:107-108 | the numbering loop numbers the sorted rows 1 to n |
| LeagueTable.CalculateTable | matches/utils.py:8-110 | the method returns the reference table for the results, bookings and tie-break values |
| LeagueTable.LeagueTableSorted | matches/utils.py:97-108 | the table is a rearrangement of the kept rows, in ascending key order, with positions 1 to n |
| LeagueTable.LeagueTableClubs | matches/utils.py:97-101 | one row per club that plays in at least one result and no other; each row holds its club's totals and obeys the accounting laws |
| LeagueTable.NoResultsEmptyTable | matches/utils.py:97-110 | with no results the table is empty, whatever the bookings |
| LeagueTable.HeadToHeadIsOverallRecord | matches/utils.py:131 | when no club meets itself, a row's head-to-head record against the table is its own points and goal difference |
| LeagueTable.HeadToHeadNeverBreaksTie | matches/utils.py:140 | when no club meets itself, rows level on points and goal difference have equal head-to-head points and margins, so keys 4 and 5 never separate them |
| LeagueTable.LeagueTableOrder | matches/utils.py:140-142 | down the table points never rise; on equal points goal difference never rises; then goals for never rise; then, with no self-match, cards never fall |
| Form.Involving | matches/utils.py:203-204 | the club's results: every stored result involving the club, as many times as it is stored, and no other |
| Form.RecentResults | matches/utils.py:203-205 | the club's latest results: as many as requested, or all when fewer; drawn from the club's results; latest kick-off first; none left out kicked off later than one kept |
| Form.LatestFirst | matches/utils.py:205 | cutting the date-descending order keeps results latest first and leaves out none later than one kept |
| Form.FormLetter | matches/utils.py:209-224 | every letter is W, D or L |
| Form.FormOf | matches/utils.py:207-227 | one letter per result, in the results' order |
| Form.GetRecentForm | matches/utils.py:198-227 | returns the letters of the club's latest results, at most the requested number |
| Form.SpellForm | matches/utils.py:207-227 | the loop appends one letter per result, in the results' order |
| Form.GetDefaultRecentForm | matches/utils.py:198 | with `num_matches` left at its default, the form of the club's five latest results |
| Form.FormLetterMeaning | matches/utils.py:209-224 | between different clubs, W exactly when the club scored more, D exactly when level, L exactly when it scored fewer; W exactly when the winner is the club |
| Form.RecentFormLaws | matches/utils.py:203-205 | at most n letters and no padding (as many as the club's results, up to n), never more than its matches played; the results all involve the club, are stored results and run latest first; none of the club's results left out is later than one reported |
| Form.InvolvingAtMostPlayed | matches/utils.py:203-204 | a club has no more results than the matches the table counts for it |
| FormValidation.EntryErrors | matches/views.py:382-387 | one error per failed check, each prefixed with the entry's kind and 1-based number; a missing subject gives "<subject> is required" first; a missing minute gives "Minute is required" last, a minute over 120 "Minute cannot be more than 120" last; none exactly when the subject and a minute up to 120 are given |
| FormValidation.CollectEntryErrors | matches/views.py:381-387 | the loop appends each entry's errors in index order |
| FormValidation.ValidateFormData | matches/views.py:378-405 | goal errors, then booking errors, then the fixture error; valid exactly when the list is empty |
| FormValidation.EntriesErrorsBound | matches/views.py:381-396 | at most two errors per entry, each starting with the entry kind |
| FormValidation.EntriesErrorsEmpty | matches/views.py:381-396 | no errors exactly when every entry is complete |
| FormValidation.ValidationLaws | matches/views.py:378-405 | valid exactly when all goals and bookings are complete and a given fixture id exists; goal errors precede booking errors and the fixture error is last |
| FormValidation.MinuteBoundary | matches/views.py:384-387 | with the subject given, every minute up to 120 is accepted and every later minute gives only "Minute cannot be more than 120" |
| FormValidation.MissingMinuteNotLate | matches/views.py:384-387 | a missing minute is reported as required and never as too late |

## Left out

- Tiebreak.TiebreakerKey: the last key, `random.seed(hash(club.name))` then `random.random()`, is the parameter `tb: string -> int`. Python's salted string hash and its PRNG are not modelled, and the float is an integer.
- The ORM queries and `select_related` are inputs given as sequences in stored order. The existence check of a fixture id is membership in the set of stored fixture ids.
- Form.RecentResults: `order_by('-fixture__date')` leaves equal dates in database order; the model keeps them in stored order (a stable sort). A negative `num_matches`, which Django's slicing rejects, is excluded by the type `nat`.
- `MatchResult.is_completed` reads the wall clock and is not used by the engine.
- `get_club_statistics` and the averages of the statistics view use float division and rounding; they are not part of this model.
- FormValidation.ValidateFormData: JSON parsing, `int()` failures and the HTTP status codes are not modelled. An entry's subject is reduced to its truth value. Its minute is reduced to None (missing or falsy) or the integer `int()` reads.
- The remaining views, forms, admin, URL routes, the data-seeding command, the gunicorn configuration and the browser script `enhanced_js.js` are presentation, glue or configuration and are not part of this model.
- Model field options other than the goal counts (positive-integer fields, so `nat`) are not modelled. The card choices are `CardChoices`, but they are not enforced on stored bookings: the engine reads any stored card text and ignores texts outside those choices (`OtherCardIgnored`).
