/** The roster rules of the draft board as functions of the list of drafted
    players: the gapless numbering invariant, the validation that `addPlayer`
    performs, removal with renumbering, search and the summary figures. */
module Roster {
  import opened JsText
  import opened Sequences
  import opened SnakeOrder

  /** One drafted player; `timestamp` is the opaque creation time. */
  datatype Player = Player(name: string, position: string, nflTeam: string, draftPick: int, timestamp: string)

  /** The form data handed to `addPlayer`. */
  datatype PlayerData = PlayerData(name: string, position: string, nflTeam: string)

  /** The alerts by which `addPlayer` reports a rejection. */
  datatype Alert = MissingFields | AlreadyDrafted | DraftComplete

  datatype Option<T> = None | Some(value: T)

  /** The board's invariant: the draft picks are 1..N in list order. */
  predicate Gapless(players: seq<Player>) {
    forall i :: 0 <= i < |players| ==> players[i].draftPick == i + 1
  }

  /** `a` and `b` are the same player, whatever their draft picks. */
  predicate SamePlayer(a: Player, b: Player) {
    a.name == b.name && a.position == b.position && a.nflTeam == b.nflTeam && a.timestamp == b.timestamp
  }

  /** The renumbering loop of `removePlayer` and `loadFromStorage`: every
      player keeps its place and gets draft pick index + 1. */
  function Renumbered(players: seq<Player>): (r: seq<Player>)
    ensures |r| == |players| && Gapless(r)
    ensures forall i :: 0 <= i < |r| ==> SamePlayer(r[i], players[i])
  {
    seq(|players|, i requires 0 <= i < |players| => players[i].(draftPick := i + 1))
  }

  /** Renumbering leaves a list alone exactly when it is already gapless; in
      particular, reloading a saved board restores it unchanged. */
  lemma RenumberedFixesGapless(players: seq<Player>)
    ensures Renumbered(players) == players <==> Gapless(players)
  {
  }

  // ---------------------------------------------------------------------
  // addPlayer

  /** The lower-cased names of `players` include the lower-cased `name`. */
  predicate NameTaken(players: seq<Player>, name: string) {
    exists p :: p in players && ToLower(p.name) == ToLower(name)
  }

  /** The checks `addPlayer` makes, in its order: a missing field, then a
      name already drafted, then a full draft. */
  function Validate(players: seq<Player>, data: PlayerData): (alert: Option<Alert>)
    ensures alert == Some(MissingFields) <==> data.name == [] || data.position == [] || data.nflTeam == []
    ensures alert == Some(AlreadyDrafted) <==>
      data.name != [] && data.position != [] && data.nflTeam != [] && NameTaken(players, data.name)
    ensures alert == Some(DraftComplete) <==>
      data.name != [] && data.position != [] && data.nflTeam != [] && !NameTaken(players, data.name) &&
      |players| >= TotalPicks
    ensures alert == None ==> |players| < TotalPicks
  {
    if data.name == [] || data.position == [] || data.nflTeam == [] then Some(MissingFields)
    else if NameTaken(players, data.name) then Some(AlreadyDrafted)
    else if |players| + 1 > TotalPicks then Some(DraftComplete)
    else None
  }

  /** The list after a successful `addPlayer`: the new player appended with
      the next pick number. */
  function Appended(players: seq<Player>, data: PlayerData, now: string): (r: seq<Player>)
    ensures |r| == |players| + 1 && r[..|players|] == players
    ensures r[|players|].draftPick == |players| + 1 && r[|players|].timestamp == now
    ensures r[|players|].name == data.name && r[|players|].position == data.position
    ensures r[|players|].nflTeam == data.nflTeam
  {
    players + [Player(data.name, data.position, data.nflTeam, |players| + 1, now)]
  }

  lemma AddKeepsGapless(players: seq<Player>, data: PlayerData, now: string)
    requires Gapless(players)
    ensures Gapless(Appended(players, data, now))
  {
  }

  /** No two players share a name, ignoring case. */
  predicate UniqueNames(players: seq<Player>) {
    forall i, j :: 0 <= i < j < |players| ==> ToLower(players[i].name) != ToLower(players[j].name)
  }

  /** The roster as `addPlayer` and `removePlayer` keep it: gapless, without
      duplicate names, and no longer than the draft. */
  predicate WellFormed(players: seq<Player>) {
    Gapless(players) && UniqueNames(players) && |players| <= TotalPicks
  }

  /** An accepted addition keeps the roster well formed, so every pick stays
      within 1..TotalPicks. */
  lemma AddKeepsWellFormed(players: seq<Player>, data: PlayerData, now: string)
    requires WellFormed(players) && Validate(players, data) == None
    ensures WellFormed(Appended(players, data, now))
  {
  }

  /** Once all picks are made, every further addition is rejected; a drafted
      name is still reported as such, since that check comes first. */
  lemma FullDraftRejects(players: seq<Player>, data: PlayerData)
    requires |players| == TotalPicks && data.name != [] && data.position != [] && data.nflTeam != []
    ensures Validate(players, data) == if NameTaken(players, data.name) then Some(AlreadyDrafted) else Some(DraftComplete)
  {
  }

  // ---------------------------------------------------------------------
  // removePlayer

  function Unpicked(draftPick: int): Player -> bool {
    (p: Player) => p.draftPick != draftPick
  }

  /** The filter step of `removePlayer`: drops every player holding `draftPick`. */
  function Without(players: seq<Player>, draftPick: int): (r: seq<Player>)
    ensures forall p :: p in r <==> p in players && p.draftPick != draftPick
  {
    Filter(players, Unpicked(draftPick))
  }

  /** Removal keeps the other players in their order. */
  lemma WithoutKeepsOrder(players: seq<Player>, draftPick: int)
    ensures SubsequenceOf(Without(players, draftPick), players)
  {
    FilterIsSubsequence(players, Unpicked(draftPick));
  }

  /** On a gapless roster, removing pick `d` takes out exactly the d-th player. */
  lemma WithoutPresentPick(players: seq<Player>, d: int)
    requires Gapless(players) && 1 <= d <= |players|
    ensures Without(players, d) == players[..d - 1] + players[d..]
  {
    var keep := Unpicked(d);
    var front, mid, back := players[..d - 1], [players[d - 1]], players[d..];
    assert players == front + mid + back;
    forall i | 0 <= i < |front| ensures keep(front[i]) {
      assert front[i] == players[i];
    }
    forall i | 0 <= i < |back| ensures keep(back[i]) {
      assert back[i] == players[d + i];
    }
    assert !keep(mid[0]);
    calc {
      Filter(players, keep);
      { FilterAppend(front + mid, back, keep); }
      Filter(front + mid, keep) + Filter(back, keep);
      { FilterAppend(front, mid, keep); }
      Filter(front, keep) + Filter(mid, keep) + Filter(back, keep);
      { FilterKeepsAll(front, keep); FilterKeepsAll(back, keep); }
      front + Filter(mid, keep) + back;
      { assert Filter(mid, keep) == Filter(mid[1..], keep) == []; }
      front + back;
    }
  }

  /** On a gapless roster, removing a pick that is not on it changes nothing. */
  lemma WithoutAbsentPick(players: seq<Player>, d: int)
    requires Gapless(players) && (d < 1 || |players| < d)
    ensures Renumbered(Without(players, d)) == players
  {
    forall i | 0 <= i < |players| ensures Unpicked(d)(players[i]) {
    }
    FilterKeepsAll(players, Unpicked(d));
    RenumberedFixesGapless(players);
  }

  /** Removing pick `d` from a gapless roster: earlier players are untouched,
      every later player moves up one place with its pick lowered by one. */
  lemma RemovalShiftsLaterPicks(players: seq<Player>, d: int)
    requires Gapless(players) && 1 <= d <= |players|
    ensures var r := Renumbered(Without(players, d));
      |r| == |players| - 1 &&
      (forall i :: 0 <= i < d - 1 ==> r[i] == players[i]) &&
      (forall i :: d - 1 <= i < |r| ==> r[i] == players[i + 1].(draftPick := players[i + 1].draftPick - 1))
  {
    WithoutPresentPick(players, d);
    RenumberedAfterCut(players, d);
  }

  /** Renumbering a gapless roster with its d-th player cut out. */
  lemma RenumberedAfterCut(players: seq<Player>, d: int)
    requires Gapless(players) && 1 <= d <= |players|
    ensures var r := Renumbered(players[..d - 1] + players[d..]);
      |r| == |players| - 1 &&
      (forall i :: 0 <= i < d - 1 ==> r[i] == players[i]) &&
      (forall i :: d - 1 <= i < |r| ==> r[i] == players[i + 1].(draftPick := players[i + 1].draftPick - 1))
  {
    var w := players[..d - 1] + players[d..];
    var r := Renumbered(w);
    forall i | 0 <= i < d - 1 ensures r[i] == players[i] {
      assert w[i] == players[i];
      assert r[i] == w[i].(draftPick := i + 1);
    }
    forall i | d - 1 <= i < |r| ensures r[i] == players[i + 1].(draftPick := players[i + 1].draftPick - 1) {
      assert w[i] == players[i + 1];
      assert r[i] == w[i].(draftPick := i + 1);
    }
  }

  /** Confirmed removal keeps a well-formed roster well formed. */
  lemma RemoveKeepsWellFormed(players: seq<Player>, d: int)
    requires WellFormed(players)
    ensures WellFormed(Renumbered(Without(players, d)))
  {
    if 1 <= d <= |players| {
      RemovalShiftsLaterPicks(players, d);
      var r := Renumbered(Without(players, d));
      forall i, j | 0 <= i < j < |r| ensures ToLower(r[i].name) != ToLower(r[j].name) {
        var i' := if i < d - 1 then i else i + 1;
        var j' := if j < d - 1 then j else j + 1;
        assert r[i].name == players[i'].name && r[j].name == players[j'].name;
      }
    } else {
      WithoutAbsentPick(players, d);
    }
  }

  // ---------------------------------------------------------------------
  // updateSummary

  /** The figures the summary panel shows. */
  datatype Summary = Summary(totalDrafted: int, currentRound: int, nextPick: int)

  /** `updateSummary`: the next pick follows the last one made, and the
      current round is the round of that next pick. */
  function SummaryOf(players: seq<Player>): (s: Summary)
    ensures s.totalDrafted == |players| && s.nextPick == |players| + 1
    ensures 1 <= s.currentRound
    ensures (s.currentRound - 1) * Teams < s.nextPick <= s.currentRound * Teams
  {
    if |players| == 0 then Summary(0, 1, 1)
    else
      var nextPick := |players| + 1;
      Summary(|players|, RoundAndTeam(nextPick).round, nextPick)
  }

  /** While the draft is open the current round is a round of the board, the
      next pick is one past the last pick made, and the board cell of the next
      pick lies in the current round. Once all picks are made the summary
      reports pick TotalPicks + 1 in round Rounds + 1. */
  lemma SummaryOfGapless(players: seq<Player>)
    requires Gapless(players)
    ensures |players| > 0 ==> SummaryOf(players).nextPick == players[|players| - 1].draftPick + 1
    ensures RoundAndTeam(SummaryOf(players).nextPick).round == SummaryOf(players).currentRound
    ensures |players| < TotalPicks ==> SummaryOf(players).currentRound <= Rounds
    ensures |players| == TotalPicks ==> SummaryOf(players).currentRound == Rounds + 1
  {
  }

  // ---------------------------------------------------------------------
  // searchPlayers

  /** What the search box shows: nothing (a blank query clears it), or the
      players found, possibly none. */
  datatype SearchResult = Cleared | Found(players: seq<Player>)

  /** Name, position or NFL team contains the already lower-cased query. */
  predicate MatchesLowered(p: Player, loweredQuery: string) {
    Includes(ToLower(p.name), loweredQuery) ||
    Includes(ToLower(p.position), loweredQuery) ||
    Includes(ToLower(p.nflTeam), loweredQuery)
  }

  function Matching(loweredQuery: string): Player -> bool {
    (p: Player) => MatchesLowered(p, loweredQuery)
  }

  /** `searchPlayers(query)`: a blank query clears the results; otherwise
      the players whose name, position or NFL team contains the untrimmed
      query, ignoring case, in roster order. */
  function SearchPlayers(players: seq<Player>, query: string): (r: SearchResult)
    ensures r == Cleared <==> AllWhitespace(query)
    ensures r.Found? ==> forall p :: p in r.players <==> p in players && MatchesLowered(p, ToLower(query))
    ensures r.Found? ==> SubsequenceOf(r.players, players)
  {
    TrimEmptyIffBlank(query);
    if Trim(query) == [] then Cleared
    else
      var found := Filter(players, Matching(ToLower(query)));
      FilterIsSubsequence(players, Matching(ToLower(query)));
      Found(found)
  }

  /** Each matching player is reported as often as it is on the roster. */
  lemma SearchCounts(players: seq<Player>, query: string, p: Player)
    requires !AllWhitespace(query)
    ensures SearchPlayers(players, query).Found?
    ensures multiset(SearchPlayers(players, query).players)[p] ==
      if MatchesLowered(p, ToLower(query)) then multiset(players)[p] else 0
  {
    FilterCounts(players, Matching(ToLower(query)), p);
  }

  /** Queries that differ only in the case of their letters give the same result. */
  lemma SearchIgnoresQueryCase(players: seq<Player>, q1: string, q2: string)
    requires ToLower(q1) == ToLower(q2)
    ensures SearchPlayers(players, q1) == SearchPlayers(players, q2)
  {
    LowerKeepsBlankness(q1);
    LowerKeepsBlankness(q2);
  }

  /** A lower-case query finds a player whose position is written in capitals. */
  lemma SearchFindsPosition(players: seq<Player>, p: Player)
    requires p in players && p.position == "RB"
    ensures SearchPlayers(players, "rb").Found?
    ensures p in SearchPlayers(players, "rb").players
  {
    var q := "rb";
    assert !IsJsWhitespace(q[0]);
    var lowered := ToLower(p.position);
    assert lowered[0] == 'r' && lowered[1] == 'b';
    assert lowered == ToLower(q) == q;
    IncludesAt(lowered, q, 0);
    assert MatchesLowered(p, ToLower(q));
  }
}
