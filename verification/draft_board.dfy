/** The draft board object: the list of drafted players it updates in place,
    and the operations that change it. Rendering, persistence and dialogs are
    outside the model; a confirmation is an argument, an alert is returned. */
module Board {
  import opened SnakeOrder
  import opened Roster

  /** What `loadFromStorage` can find under its storage key, after parsing. */
  datatype Stored =
    | NothingSaved                        // no entry under the key
    | Unparseable                         // the entry is not JSON; the error is logged
    | NoPlayerList                        // parsed, but `players` is missing or not an array
    | PlayerList(players: seq<Player>)    // a parsed array of player records

  class DraftBoard {
    var players: seq<Player>

    /** The draft picks are 1..N in list order. */
    ghost predicate Valid()
      reads this
    {
      Gapless(players)
    }

    /** Starts with an empty board and restores whatever was saved. */
    constructor (stored: Stored)
      ensures Valid()
      ensures stored.PlayerList? ==> players == Renumbered(stored.players)
      ensures !stored.PlayerList? ==> players == []
    {
      players := [];
      new;
      LoadFromStorage(stored);
    }

    /** `addPlayer`: validates the form data and, if it passes, appends the
        player with the next pick number. `ok` is the returned flag and
        `alert` the message shown on rejection. */
    method AddPlayer(data: PlayerData, now: string) returns (ok: bool, alert: Option<Alert>)
      requires Valid()
      modifies this
      ensures Valid()
      ensures alert == Validate(old(players), data) && (ok <==> alert == None)
      ensures ok ==> players == Appended(old(players), data, now)
      ensures !ok ==> players == old(players)
    {
      if data.name == [] || data.position == [] || data.nflTeam == [] {
        return false, Some(MissingFields);
      }
      if NameTaken(players, data.name) {
        return false, Some(AlreadyDrafted);
      }
      var nextPickNumber := |players| + 1;
      if nextPickNumber > TotalPicks {
        return false, Some(DraftComplete);
      }
      players := players + [Player(data.name, data.position, data.nflTeam, nextPickNumber, now)];
      ok, alert := true, None;
    }

    /** `removePlayer`: once confirmed, drops the player holding `draftPick`
        and renumbers the rest. */
    method RemovePlayer(draftPick: int, confirmed: bool)
      requires Valid()
      modifies this
      ensures Valid()
      ensures confirmed ==> players == Renumbered(Without(old(players), draftPick))
      ensures !confirmed ==> players == old(players)
    {
      if confirmed {
        players := Without(players, draftPick);
        Renumber();
      }
    }

    /** `loadFromStorage`: replaces the list with a saved one and renumbers
        it; anything else leaves the board as it was. */
    method LoadFromStorage(stored: Stored)
      modifies this
      ensures stored.PlayerList? ==> players == Renumbered(stored.players)
      ensures !stored.PlayerList? ==> players == old(players)
      ensures old(Valid()) ==> Valid()
      ensures stored.PlayerList? ==> Valid()
    {
      if stored.PlayerList? {
        players := stored.players;
        Renumber();
      }
    }

    /** The loop shared by removal and loading: sets each player's draft pick
        to its index + 1. */
    method Renumber()
      modifies this
      ensures players == Renumbered(old(players))
    {
      var i := 0;
      while i < |players|
        invariant 0 <= i <= |players| == |old(players)|
        invariant forall k :: 0 <= k < i ==> players[k] == old(players)[k].(draftPick := k + 1)
        invariant forall k :: i <= k < |players| ==> players[k] == old(players)[k]
      {
        players := players[i := players[i].(draftPick := i + 1)];
        i := i + 1;
      }
    }
  }
}
