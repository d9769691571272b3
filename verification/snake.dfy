/** Snake-order pick numbering for a 12-team, 15-round draft: odd rounds run
    team 1 to team 12, even rounds run team 12 back to team 1, so the team
    with the last pick of one round has the first pick of the next. */
module SnakeOrder {

  const Teams := 12
  const Rounds := 15
  /** Fixed separately from Teams and Rounds in the board; it equals their product. */
  const TotalPicks := 180

  /** JavaScript's `n % 2`: the remainder of division truncated toward zero,
      which takes the sign of `n` (so it is -1, not 1, for negative odd `n`). */
  function JsRem2(n: int): (r: int)
    ensures 0 <= n ==> 0 <= r <= 1
    ensures n < 0 ==> -1 <= r <= 0
    ensures (n - r) % 2 == 0
  {
    if n >= 0 then n % 2 else -((-n) % 2)
  }

  /** `Math.ceil(a / b)` for integer `a` and positive `b`. */
  function CeilDiv(a: int, b: int): (q: int)
    requires b > 0
    ensures (q - 1) * b < a <= q * b
  {
    var m := -a;
    assert m == b * (m / b) + m % b;
    -(m / b)
  }

  /** A cell of the board: a round (row) and a team slot (column). */
  datatype Cell = Cell(round: int, team: int)

  /** `getPickNumber(round, team)`: the overall pick made at a board cell. */
  function PickNumber(round: int, team: int): (pick: int)
    ensures 1 <= team <= Teams ==> (round - 1) * Teams < pick <= round * Teams
  {
    if JsRem2(round) == 1 then (round - 1) * Teams + team
    else (round - 1) * Teams + (Teams - team + 1)
  }

  /** `getRoundAndTeam(pick)`: the board cell at which an overall pick is made. */
  function RoundAndTeam(pick: int): (c: Cell)
    ensures (c.round - 1) * Teams < pick <= c.round * Teams
    ensures 1 <= c.team <= Teams
  {
    var round := CeilDiv(pick, Teams);
    var team :=
      if JsRem2(round) == 1 then pick - (round - 1) * Teams
      else Teams - (pick - (round - 1) * Teams) + 1;
    Cell(round, team)
  }

  /** A pick lies in round `ceil(pick / Teams)`; rounds are blocks of Teams picks. */
  lemma RoundOfPick(pick: int, round: int)
    requires (round - 1) * Teams < pick <= round * Teams
    ensures RoundAndTeam(pick).round == round
  {
  }

  /** Looking up the cell of the pick made at a cell gives back that cell. */
  lemma RoundTrip(round: int, team: int)
    requires 1 <= team <= Teams
    ensures RoundAndTeam(PickNumber(round, team)) == Cell(round, team)
  {
  }

  /** Every pick is the pick made at its own cell. */
  lemma PickOfCell(pick: int)
    ensures PickNumber(RoundAndTeam(pick).round, RoundAndTeam(pick).team) == pick
  {
  }

  /** Within a round, later teams pick later exactly when the round is odd. */
  lemma SnakeDirection(round: int, t1: int, t2: int)
    requires 1 <= round && 1 <= t1 < t2 <= Teams
    ensures PickNumber(round, t1) < PickNumber(round, t2) <==> round % 2 == 1
  {
  }

  /** The team that makes the last pick of a round makes the first pick of the next. */
  lemma SnakeTurn(round: int)
    requires 1 <= round
    ensures RoundAndTeam(round * Teams + 1).team == RoundAndTeam(round * Teams).team
    ensures RoundAndTeam(round * Teams + 1).round == RoundAndTeam(round * Teams).round + 1
  {
  }

  /** Two cells carry the same pick only if they are the same cell. */
  lemma PickNumberInjective(r1: int, t1: int, r2: int, t2: int)
    requires 1 <= t1 <= Teams && 1 <= t2 <= Teams
    requires PickNumber(r1, t1) == PickNumber(r2, t2)
    ensures r1 == r2 && t1 == t2
  {
  }

  /** The board's cells (rounds 1..Rounds, teams 1..Teams) carry picks 1..TotalPicks ... */
  lemma BoardPicksInRange(round: int, team: int)
    requires 1 <= round <= Rounds && 1 <= team <= Teams
    ensures 1 <= PickNumber(round, team) <= TotalPicks
  {
  }

  /** ... and every pick 1..TotalPicks is carried by a cell of the board. */
  lemma BoardCoversEveryPick(pick: int)
    requires 1 <= pick <= TotalPicks
    ensures 1 <= RoundAndTeam(pick).round <= Rounds
    ensures PickNumber(RoundAndTeam(pick).round, RoundAndTeam(pick).team) == pick
  {
  }

  /** The two cells of round 2 that show the reversal. */
  lemma SecondRoundReverses()
    ensures PickNumber(2, 12) == 13 && PickNumber(2, 1) == 24
    ensures RoundAndTeam(13) == Cell(2, 12) && RoundAndTeam(24) == Cell(2, 1)
  {
  }
}
