# Snake-draft board, modelled in Dafny

A model of the `DraftBoard` class of a browser fantasy-football draft tracker
(`script.js`). The board is a grid of 15 rounds by 12 teams. Picks are numbered
in snake order: odd rounds run from team 1 to team 12, even rounds from team 12
back to team 1. The board keeps an ordered list of drafted players. Their
`draftPick` fields are always `1..N` in list order. Adding a player appends it
with the next number. Removing a player, or loading a saved list, renumbers
the list.

Files, one module each:

- `snake.dfy` (`SnakeOrder`): the constants, `getPickNumber`, `getRoundAndTeam`, JavaScript's `%` and `Math.ceil`, and the round-trip and snake-order lemmas.
- `roster.dfy` (`Roster`): players, the gapless invariant, the checks `addPlayer` makes, filter-and-renumber removal, `updateSummary`'s figures, and `searchPlayers`.
- `draft_board.dfy` (`Board`): the `DraftBoard` class. Its `players` field is updated by `AddPlayer`, `RemovePlayer`, `LoadFromStorage` and the renumbering loop `Renumber`.
- `text.dfy` (`JsText`): `trim`, `toLowerCase` and `includes`.
- `sequences.dfy` (`Sequences`): `Array.prototype.filter` and the order it keeps.

Inputs from the environment become parameters:

- the answer of the `confirm` dialog is `RemovePlayer`'s `confirmed`;
- the clock reading is `AddPlayer`'s `now`;
- the parsed content of local storage is a `Stored` value.

An `alert` becomes a `false` result together with the `Alert` it would show.

## Behaviour as written

The model follows `script.js` in these points:

- There is only automatic numbering. No pick number can be entered by hand.
- `addPlayer` rejects a drafted name before it rejects a full draft. A full board still answers `AlreadyDrafted` for a known name (`FullDraftRejects`).
- `addPlayer` tests its fields only for emptiness. A name of spaces passes. Trimming happens in the form handler, which is not modelled.
- Removing a pick that is not on the board is not an error. The list is renumbered and, being gapless already, stays the same (`WithoutAbsentPick`).
- Unreadable saved data leaves the list as it was. At start-up that list is empty.
- Once all 180 picks are made, the summary shows pick 181 in round 16 (`SummaryOfGapless`).
- `%` is JavaScript's truncating remainder. For a round of 0 or less, the parity test therefore takes the even branch in both directions. In the model, where numbers are unbounded integers, the round trips hold for every integer pick, not only for picks on the board. For `script.js` this carries over to picks below 2^53 in magnitude (see "## Left out").

## Model

| member | source | states |
|---|---|---|
| SnakeOrder.JsRem2 | script.js:61 | the truncated remainder of `n % 2`: 0 or 1 for `n >= 0`, 0 or -1 for `n < 0`, and `n` minus it is even |
| SnakeOrder.CeilDiv | script.js:72 | `Math.ceil(a / b)`: the unique `q` with `(q-1)*b < a <= q*b` |
| SnakeOrder.PickNumber | script.js:60-68 | for a team in 1..12, the pick at round `r` lies in `((r-1)*12, r*12]` |
| SnakeOrder.RoundAndTeam | script.js:71-84 | the round is `ceil(pick/12)` and the team always lies in 1..12 |
| SnakeOrder.RoundOfPick | script.js:72 | every pick in `((r-1)*12, r*12]` is placed in round `r` |
| SnakeOrder.RoundTrip | script.js:60-84 | `getRoundAndTeam(getPickNumber(r, t)) == (r, t)` for every team in 1..12 |
| SnakeOrder.PickOfCell | script.js:60-84 | `getPickNumber` of `getRoundAndTeam(p)` is `p`, for every pick |
| SnakeOrder.SnakeDirection | script.js:60-68 | within a round, a later team picks later exactly when the round is odd |
| SnakeOrder.SnakeTurn | script.js:60-84 | the team with the last pick of a round has the first pick of the next round |
| SnakeOrder.PickNumberInjective | script.js:60-68 | two board cells never share a pick number |
| SnakeOrder.BoardPicksInRange | script.js:25-41 | every cell of the 15 x 12 board gets a pick in 1..180 |
| SnakeOrder.BoardCoversEveryPick | script.js:6-8 | every pick in 1..180 belongs to a cell of the board, in rounds 1..15 |
| SnakeOrder.SecondRoundReverses | script.js:60-68 | round 2, team 12 has pick 13 and round 2, team 1 has pick 24, and back |
| JsText.TrimStart | script.js:245 | the result is a suffix of the input, and what was dropped is all whitespace |
| JsText.TrimEnd | script.js:245 | the result is a prefix of the input, and what was dropped is all whitespace |
| JsText.Trim | script.js:245 | `trim` keeps a slice of the input with only whitespace before and after it; that slice is empty or starts and ends with a non-space |
| JsText.TrimBounds | script.js:245 | the offsets at which `trim` cuts exist: it removes only whitespace, and only at the ends |
| JsText.TrimEmptyIffBlank | script.js:245 | `!query.trim()` holds exactly when the query is whitespace only |
| JsText.ToLower | script.js:155 | `toLowerCase` keeps the length, leaves no capital letter, turns each capital into its small letter and keeps every other character |
| JsText.ToLowerIdempotent | script.js:251-253 | lowering an already lowered string changes nothing |
| JsText.LowerKeepsBlankness | script.js:245-251 | lowering a query neither makes nor unmakes a blank query |
| JsText.IncludesAt | script.js:251-253 | `includes` holds when the text has the query at some offset |
| JsText.IncludesOffset | script.js:251-253 | and `includes` holds only then: it yields that offset |
| Sequences.Filter | script.js:199 | `filter` keeps exactly the elements that pass the test, and no more of them than there were |
| Sequences.FilterIsSubsequence | script.js:199 | `filter` keeps the relative order of what it keeps |
| Sequences.FilterCounts | script.js:250-254 | each kept value occurs in the result as often as in the input |
| Sequences.FilterAppend | script.js:199 | filtering a concatenation filters each part |
| Sequences.FilterKeepsAll | script.js:199 | filtering with a test every element passes returns the input |
| Roster.Renumbered | script.js:202-204 | the renumbering loop's result: same players in the same places, picks `1..N` |
| Roster.RenumberedFixesGapless | script.js:294-300 | renumbering leaves a list unchanged exactly when it is already gapless, so a saved board reloads unchanged |
| Roster.Validate | script.js:147-167 | rejection reasons and their order: missing field, then a name already drafted (ignoring case), then more than 180 picks |
| Roster.Appended | script.js:169-176 | one entry appended with pick `length + 1`, the form's fields and the time; earlier entries untouched |
| Roster.AddKeepsGapless | script.js:161-176 | if the picks are `1..N` before an addition, they are `1..N+1` after it |
| Roster.AddKeepsWellFormed | script.js:147-176 | an accepted addition keeps picks gapless, names unique and the list at most 180 long |
| Roster.FullDraftRejects | script.js:155-167 | with 180 picks made, every complete form is rejected: as a duplicate if the name is drafted, else as draft complete |
| Roster.Without | script.js:199 | exactly the players whose pick differs from the removed one remain |
| Roster.WithoutKeepsOrder | script.js:199 | the remaining players keep their relative order |
| Roster.WithoutPresentPick | script.js:199 | on a gapless list, removing pick `d` takes out exactly the `d`-th player |
| Roster.WithoutAbsentPick | script.js:197-204 | on a gapless list, removing a pick not on it and renumbering changes nothing |
| Roster.RemovalShiftsLaterPicks | script.js:197-204 | after removal, earlier players are unchanged and each later player moves up one place with its pick lowered by one |
| Roster.RemoveKeepsWellFormed | script.js:197-204 | removal keeps picks gapless, names unique and the list at most 180 long |
| Roster.SummaryOf | script.js:229-240 | players drafted is the list length, next pick is `length + 1`, current round is `ceil(nextPick / 12)` |
| Roster.SummaryOfGapless | script.js:229-240 | next pick follows the last pick made, current round is the round of the next pick, within 1..15 while picks remain, and 16 after all 180 |
| Roster.SearchPlayers | script.js:244-254 | a blank query clears the results; otherwise exactly the players whose name, position or NFL team contains the query ignoring case, in roster order |
| Roster.SearchCounts | script.js:250-254 | each matching player is reported as often as it is on the roster |
| Roster.SearchIgnoresQueryCase | script.js:245-254 | queries that differ only in letter case give the same result |
| Roster.SearchFindsPosition | script.js:250-254 | the query "rb" finds a player listed at position "RB" |
| Board.DraftBoard.constructor | script.js:3-18 | a new board starts empty and then restores the saved list, renumbered |
| Board.DraftBoard.AddPlayer | script.js:147-194 | returns `Validate`'s alert and `false` on rejection with the list unchanged, else appends the player and keeps the picks gapless |
| Board.DraftBoard.RemovePlayer | script.js:197-210 | unconfirmed: nothing changes; confirmed: the list becomes the renumbered list without that pick |
| Board.DraftBoard.LoadFromStorage | script.js:289-309 | a saved player array replaces the list and is renumbered `1..N`; anything else leaves the list unchanged |
| Board.DraftBoard.Renumber | script.js:202-204 | the loop sets each player's pick to its index + 1 and changes nothing else |

## Left out

- DOM work is not modelled: `generateDraftBoard` beyond its use of `getPickNumber`, `showPlayerInfo`, `handleCellClick`, `promptForPlayer`, `highlightCell`, `removeHighlight`, `updateDraftBoard`, `clearForm` and `bindEvents`. It only draws cells and wires events.
- `updateSummary` and `searchPlayers` write to the page. The model returns what they write as values (`Summary`, `SearchResult`). The "Found: …" and "No players found" texts are not modelled.
- `alert` and `confirm` are dialogs. The model returns the alert and takes the confirmation as an argument.
- `saveToStorage`, `localStorage` and JSON are browser storage and serialisation. A saved list is assumed to come back from `JSON.parse` as the same records. `Stored` stands for the parsed result.
- `LoadFromStorage` assumes every stored element is a player record. In the source, an element that is not an object makes the renumbering throw part-way. The list is then replaced but only partly renumbered.
- Timestamps come from the clock. They are the opaque `now` argument.
- `currentPick` is set to 1 and never read, so it is not modelled.
- `teams`, `rounds` and `totalPicks` are never changed. They are module constants.
- `addSampleData` and the `window` globals are demo and start-up code.
- `ToLower`: lower-cases ASCII letters only, not the full Unicode mapping of `toLowerCase`.
- Numbers: JavaScript numbers are IEEE doubles; the model uses unbounded integers. These agree exactly for the integers of magnitude below 2^53, which include every pick, round and team on the board. For larger picks, `pickNumber / this.teams` in `getRoundAndTeam` rounds, and the cell it returns can fall outside teams 1..12. The model does not capture that rounding.
- Player records are values, not shared objects. In the source each record is created fresh, by object spread or by `JSON.parse`, and only the list holds it.
- Fields that are `undefined` or `null` are not modelled. The source's truthiness test is modelled as non-emptiness of a string.
