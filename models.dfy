/** The records of matches/models.py that the league-table engine reads, and the
    small rules defined on them: the same-club check of a fixture, its two teams,
    the winner of a result and the text label of a goal. Clubs are identified by
    their primary key `id`, as Django compares model instances. */
module LeagueModels {
  import opened Text

  datatype Option<T> = None | Some(value: T)

  /** A club; its `name` is unique among clubs (matches/models.py:7). */
  datatype Club = Club(id: nat, name: string)

  datatype Player = Player(firstName: string, lastName: string, club: Club)

  /** A scheduled match; `date` is the kick-off time as a timestamp. */
  datatype Fixture = Fixture(team1: Club, team2: Club, date: int)

  /** The recorded score of a played fixture. Goal counts are positive-integer
      fields, so they are natural numbers here. */
  datatype MatchResult = MatchResult(fixture: Fixture, team1Goals: nat, team2Goals: nat)

  /** A card shown to a player. `cardType` is the stored string: the form only
      offers the two `CardChoices`, but the engine reads whatever is stored. */
  datatype Booking = Booking(player: Player, cardType: string, minute: nat)

  datatype Goal = Goal(scorer: Player, assist: Option<Player>, minute: nat, ownGoal: bool, penalty: bool)

  /** The card kinds a booking may be given. */
  const CardChoices: seq<string> := ["yellow", "red"]

  /** Outcome of model validation: `clean` either returns or raises a ValidationError. */
  datatype Validation = Passed | Rejected(message: string)

  /** `Fixture.clean`: a club cannot be drawn against itself. */
  function Clean(f: Fixture): (v: Validation)
    ensures v.Rejected? <==> f.team1.id == f.team2.id
    ensures v.Rejected? ==> v.message == "A club cannot play against itself."
  {
    if f.team1.id == f.team2.id then Rejected("A club cannot play against itself.") else Passed
  }

  /** `Fixture.teams_involved`: both teams, the first-named club first. */
  function TeamsInvolved(f: Fixture): (teams: seq<Club>)
    ensures |teams| == 2 && teams[0] == f.team1 && teams[1] == f.team2
  {
    [f.team1, f.team2]
  }

  /** True when club `id` plays in the result, in either slot. */
  predicate Involves(r: MatchResult, id: nat) {
    r.fixture.team1.id == id || r.fixture.team2.id == id
  }

  /** A club plays in a result exactly when it is one of the fixture's teams. */
  lemma {:induction false} InvolvesIsTeamsInvolved(r: MatchResult, id: nat)
    ensures Involves(r, id) <==> exists k :: 0 <= k < 2 && TeamsInvolved(r.fixture)[k].id == id
  {
    var teams := TeamsInvolved(r.fixture);
    if Involves(r, id) {
      if r.fixture.team1.id == id { assert teams[0].id == id; } else { assert teams[1].id == id; }
    }
  }

  /** `MatchResult.winner`: the club that scored more, or None for a draw. */
  function Winner(r: MatchResult): (w: Option<Club>)
    ensures r.team1Goals > r.team2Goals ==> w == Some(r.fixture.team1)
    ensures r.team2Goals > r.team1Goals ==> w == Some(r.fixture.team2)
    ensures w.None? <==> r.team1Goals == r.team2Goals
  {
    if r.team1Goals > r.team2Goals then Some(r.fixture.team1)
    else if r.team2Goals > r.team1Goals then Some(r.fixture.team2)
    else None
  }

  /** `result.winner == club`, comparing clubs by primary key. */
  predicate WonBy(r: MatchResult, club: Club): (won: bool)
    ensures won <==>
      || (r.team1Goals > r.team2Goals && r.fixture.team1.id == club.id)
      || (r.team2Goals > r.team1Goals && r.fixture.team2.id == club.id)
  {
    Winner(r).Some? && Winner(r).value.id == club.id
  }

  /** A winner is always one of the two teams, and exactly one team wins any
      result that is not a draw. */
  lemma {:induction false} WinnerIsATeam(r: MatchResult)
    requires r.fixture.team1.id != r.fixture.team2.id
    ensures Winner(r).Some? ==> Winner(r).value in TeamsInvolved(r.fixture)
    ensures WonBy(r, r.fixture.team1) <==> r.team1Goals > r.team2Goals
    ensures WonBy(r, r.fixture.team2) <==> r.team2Goals > r.team1Goals
  {
  }

  function FullName(p: Player): string {
    p.firstName + " " + p.lastName
  }

  /** The goal-type marker of a goal's label: an own goal is marked " (OG)"
      whether or not it was also a penalty; otherwise a penalty is marked " (P)". */
  function GoalTypeMarker(g: Goal): (m: string)
    ensures g.ownGoal ==> m == " (OG)"
    ensures !g.ownGoal && g.penalty ==> m == " (P)"
    ensures !g.ownGoal && !g.penalty ==> m == ""
  {
    if g.ownGoal then " (OG)" else if g.penalty then " (P)" else ""
  }

  /** The assist text: present exactly when the goal has an assist. */
  function AssistText(g: Goal): (t: string)
    ensures t == "" <==> g.assist.None?
    ensures g.assist.Some? ==> t == ", assisted by " + FullName(g.assist.value)
  {
    match g.assist
    case None => ""
    case Some(a) => ", assisted by " + FullName(a)
  }

  /** `Goal.__str__`: "First Last (minute'marker)" followed by the assist text. */
  function GoalLabel(g: Goal): (s: string)
    ensures |s| > |FullName(g.scorer)| + 2
    ensures s[..|FullName(g.scorer)|] == FullName(g.scorer)
    ensures var tail := "'" + GoalTypeMarker(g) + ")" + AssistText(g);
            |s| >= |tail| && s[|s| - |tail|..] == tail
  {
    FullName(g.scorer) + " (" + NatToString(g.minute) + "'" + GoalTypeMarker(g) + ")" + AssistText(g)
  }

  /** Precedence of the markers: for an own goal the penalty flag does not
      change the label. */
  lemma {:induction false} OwnGoalOverridesPenalty(g: Goal, penalty: bool)
    requires g.ownGoal
    ensures GoalLabel(g.(penalty := penalty)) == GoalLabel(g)
  {
  }

  /** The label records the minute: two goals by the same scorer with the same
      markers and assist have equal labels only when the minutes are equal. */
  lemma {:induction false} GoalLabelDeterminesMinute(g: Goal, h: Goal)
    requires g.scorer == h.scorer && g.assist == h.assist
    requires g.ownGoal == h.ownGoal && g.penalty == h.penalty
    requires GoalLabel(g) == GoalLabel(h)
    ensures g.minute == h.minute
  {
    var pre := FullName(g.scorer) + " (";
    var post := "'" + GoalTypeMarker(g) + ")" + AssistText(g);
    var x, y := NatToString(g.minute), NatToString(h.minute);
    assert GoalLabel(g) == pre + x + post;
    assert GoalLabel(h) == pre + y + post;
    MiddleOf(pre, x, post);
    MiddleOf(pre, y, post);
    NatToStringInjective(g.minute, h.minute);
  }

  lemma MiddleOf(p: string, x: string, q: string)
    ensures var s := p + x + q; |s| == |p| + |x| + |q| && s[|p|..|s| - |q|] == x
  {
  }
}
