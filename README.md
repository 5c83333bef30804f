# Dice-elimination game engine, modelled in Dafny

This project models the rule engine of `dg/dg.go`, a terminal dice game. A
roster of players each holds a hand of dice. Every turn the players who still
have dice and are not eliminated roll. Then `evaluate` runs three passes:

1. every die showing 1 is taken out of the hand and counted, and every 6 is
   taken out and scores six points;
2. each player's 1s are handed on, as new dice showing 1, to the roster position
   equal to its ID, or to position 0 when the ID is not below the roster size;
3. every player left without dice who is not yet eliminated is eliminated, and
   the remaining-player count drops by one for each.

The game ends when at most one player remains. The winners are every player
holding the top score, in roster order.

Layout:

- `wrappers.dfy`: `Option` (a Go `nil` slice is `None`) and `Result` (a Go
  `error` return is `Err`).
- `rules.dfy` (module `Rules`): the `Player` record and `removeDie`. It also
  holds one specification function per pass of `evaluate`: `Resolved`,
  `Handed`/`AfterTransfers` and `MarkAll`, composed as `Evaluated`. It defines
  the bookkeeping predicates of a game as well.
- `rules_lemmas.dfy` (module `RuleLemmas`): properties of those functions.
  - what each pass does to a player;
  - where the 1s go;
  - elimination and the remaining-player count;
  - the invariants one round preserves.
- `conservation.dfy` (module `Conservation`): dice are neither created nor lost
  by a round except as the rules say.
- `winners.dfy` (module `Winners`): the top score, the winner list `Top`, and
  the step-by-step invariant of the winner scan.
- `game.dfy` (module `DiceGame`): the imperative engine.
  - `RollDice` and `ResolveHand` work on one player.
  - `Game` is a class whose `players`, `remaining` and `winners` fields its
    methods update in place: `Evaluate` (with one method per pass),
    `GetWinners`, and `PlayRound` (one turn of `Play`).
  - `CreatePlayers` and `CreateGame` carry their error returns.
  - Every method is proved against the specification functions above.
- `scenarios.dfy` (module `Scenarios`): two concrete rounds, worked through the
  rules.

Where the redistribution pass is concerned, the model follows the code.
- The code keys its counter by player ID, hands the 1s to `Players[ID]`, and
  iterates the map in unspecified order.
- One can read the code as not reliably handing the 1s to the next player.
  `Rules.Incoming` shows that the iteration order does not matter: every
  recipient's total is a sum over the roster.
- `RuleLemmas.IncomingFromPrevious` shows that, with IDs `1..n` as
  `CreatePlayers` assigns them, each position receives exactly the 1s of the
  player before it, and position 0 receives those of the last.
- The 1s go to the next player in roster order even when that player is
  eliminated. In that case they are dropped. `Conservation.DiceConservation`
  accounts for them as "withheld".

## Model

| member | source | states |
|---|---|---|
| `Rules.Player.RemoveDie` | dg/dg.go:36-40 | The die at position `i` leaves the hand and the later dice close the gap in order: the hand is one shorter and every other field is unchanged. |
| `RuleLemmas.RemoveDieMultiset` | dg/dg.go:37-40 | `removeDie` loses exactly the removed die: the other dice are all still in the hand. |
| `Rules.Count` | dg/dg.go:51-52 | The per-player count of a face never exceeds the hand size. |
| `RuleLemmas.CountIsMultiplicity` | dg/dg.go:51-52 | The counter of 1s (and of 6s) is the multiplicity of that face in the hand. |
| `Rules.Kept` | dg/dg.go:50-60 | The dice surviving the first pass: as many as the hand minus its 1s and 6s, and none of them a 1 or a 6. |
| `RuleLemmas.KeptMultiplicity` | dg/dg.go:50-60 | A face other than 1 and 6 keeps all its copies through the first pass; 1s and 6s keep none. |
| `RuleLemmas.ScanStep` | dg/dg.go:50-60 | Examining one more die adds it to the survivors when it stays, and adds one to the matching counter when it is a 1 or a 6. |
| `RuleLemmas.ScanHand` | dg/dg.go:50-59 | One step of the in-place scan: stepping over a die that stays, or removing a 1 or a 6 without advancing (`j--` then `j++`), keeps the hand as "survivors so far, then the unexamined dice". |
| `DiceGame.ScanRemoved` | dg/dg.go:51-58 | Removing a 1 (counted) or a 6 (scored) at the scan position keeps the scan invariant with one more die examined. |
| `DiceGame.ScanKept` | dg/dg.go:50 | Stepping over a die showing neither 1 nor 6 keeps the scan invariant with one more die examined. |
| `DiceGame.ResolveHand` | dg/dg.go:49-60 | The first pass on one player: the hand becomes its dice other than 1 and 6 in their original order, the score rises by six per 6, and the returned counter is the number of 1s. |
| `DiceGame.RollDice` | dg/dg.go:29-34 | `rollDice` with injected faces: every die shows the given face in 1..6; ID, score, flag and hand size are unchanged. |
| `DiceGame.Game.constructor` | dg/dg.go:205-214 | A game over a non-empty roster: totals from the roster, everybody remaining, the first player as the only winner so far. |
| `DiceGame.Game.Evaluate` | dg/dg.go:43-89 | `evaluate`: the roster becomes `Evaluated` of the old roster, the remaining count drops by `Dropped` (the number of players newly eliminated), and the settings and winner list are unchanged. |
| `DiceGame.Game.ResolveDice` | dg/dg.go:48-61 | The first pass on the roster: every player is `Resolved` and the counter of each position is the number of 1s its player held. |
| `DiceGame.Game.PassOnes` | dg/dg.go:63-80 | The second pass: for every player with 1s, position `ID` (or 0 when `ID` is not below the roster size) receives that many dice showing 1 unless already eliminated; the roster ends as `Handed` of all players. |
| `DiceGame.Game.HandOver` | dg/dg.go:67-77 | The inner loop of the second pass: `v` dice showing 1 are appended to the hand at position `t`, or none if that player is eliminated; no other position changes. |
| `DiceGame.Game.EliminateEmpty` | dg/dg.go:82-88 | The third pass: exactly the players with an empty hand who are not yet eliminated are flagged, and the remaining count drops by their number. |
| `RuleLemmas.ReceiveNone` | dg/dg.go:67-77 | Handing over no dice changes nothing. |
| `RuleLemmas.ReceiveTwice` | dg/dg.go:64-80 | Receiving `a` dice and then `b` more is receiving `a + b`, so the order in which the counter map is iterated does not matter. |
| `RuleLemmas.HandedNone` | dg/dg.go:63-64 | Before the second pass hands anything over, the roster is the first pass's result. |
| `RuleLemmas.HandedStep` | dg/dg.go:64-80 | Handing over one player's 1s changes only its target position, by `Receive`; a player without 1s changes nothing. |
| `RuleLemmas.IncomingFromPrefix` | dg/dg.go:64-80 | With IDs `1..n`, among the first `k` players only the one just before position `t` (wrapping from the last) sends 1s to `t`. |
| `RuleLemmas.IncomingFromPrevious` | dg/dg.go:64-80 | With IDs `1..n`, position `t` receives exactly the 1s of the previous player, and position 0 those of the last player. |
| `RuleLemmas.SinglePlayerKeepsOnes` | dg/dg.go:64-80 | A one-player roster hands its 1s back to itself. |
| `RuleLemmas.EvaluatedAt` | dg/dg.go:43-89 | One round per player, with IDs `1..n`: the score rises by six per 6; the hand is its dice other than 1 and 6 in order, followed (unless already eliminated) by one die showing 1 per 1 of the previous player; the player is eliminated iff it was or that hand is empty. |
| `RuleLemmas.EvaluatedShape` | dg/dg.go:43-89 | For any IDs: size, order and IDs unchanged, no score falls, no flag returns to false, and the flagged players are exactly the old ones plus those left with an empty hand. |
| `RuleLemmas.SameFlagsSameCount` | dg/dg.go:63-80 | Passes that change no flag keep the number of players not eliminated. |
| `RuleLemmas.MarkAllCount` | dg/dg.go:82-88 | The third pass lowers the number of players not eliminated by exactly the number it flags. |
| `RuleLemmas.NewlyOutAtMostActive` | dg/dg.go:82-88 | The third pass never flags more players than are still in the game. |
| `RuleLemmas.EvaluatePreservesConsistency` | dg/dg.go:43-89 | If the remaining count is the number of players not eliminated and the eliminated hold no dice, both still hold after `evaluate`, and every player left in the game holds at least one die. |
| `RuleLemmas.AllActiveCount` | dg/dg.go:183-197 | A roster with nobody eliminated counts every player as remaining. |
| `RuleLemmas.RolledShape` | dg/dg.go:154-158 | Rolling changes faces only: size, order, IDs, scores, flags and hand sizes stay, and so does the bookkeeping. |
| `RuleLemmas.RoundKeepsBookkeeping` | dg/dg.go:151-172 | A roll followed by `evaluate` on a consistent roster with distinct non-negative IDs can always be evaluated, keeps the bookkeeping consistent and the IDs sound, and only raises scores and sets flags. |
| `RuleLemmas.RoundLeavesNoSix` | dg/dg.go:154-163 | After a roll of faces 1..6 and `evaluate`, every die in any hand shows 1..5. |
| `Conservation.IncomingTotal` | dg/dg.go:64-80 | The 1s addressed by the first `k` players add up to the 1s those players held. |
| `Conservation.OnesClosure` | dg/dg.go:64-80 | The 1s taken out of all hands equal the dice handed out plus the dice withheld from eliminated recipients. |
| `Conservation.EvaluableTargets` | dg/dg.go:66-76 | A roster `evaluate` accepts hands every 1 to a position inside the roster. |
| `Conservation.DiceConservation` | dg/dg.go:43-89 | Over one `evaluate`, the dice in all hands afterwards plus the 6s scored plus the 1s withheld add up to the dice in all hands before. |
| `Winners.MaxScore` | dg/dg.go:107-115 | The top score bounds every player's score and is held by some player. |
| `Winners.AtScoreMembers` | dg/dg.go:107-115 | The players selected at a score are exactly the roster's players with that score. |
| `Winners.AtScoreNone` | dg/dg.go:109-110 | If everyone scores below `v`, nobody is selected at `v`. |
| `Winners.AtScoreDistinct` | dg/dg.go:107-115 | With distinct IDs, nobody is selected twice. |
| `Winners.AtScoreAll` | dg/dg.go:107-115 | When every player has score `v`, all are selected, in roster order. |
| `Winners.TopWellFormed` | dg/dg.go:107-115 | The winner list is non-empty, every entry holds the top score, every player holding it is listed, and with distinct IDs nobody is listed twice. |
| `Winners.TopAllTied` | dg/dg.go:107-115 | When all players tie, all of them are winners, in roster order. |
| `Winners.TopBeaten` | dg/dg.go:109-110 | A player beating the best score so far becomes the only winner so far. |
| `Winners.TopTied` | dg/dg.go:111-112 | A player tying the best score so far is appended to the winners so far. |
| `Winners.TopBelow` | dg/dg.go:108-114 | A player below the best score so far leaves the winners so far unchanged. |
| `Winners.TopSingle` | dg/dg.go:108-114 | A single player is the only winner. |
| `Winners.WinnersScanStep` | dg/dg.go:108-114 | One iteration of the winner scan keeps the list equal, after its head, to the winners among the players scanned so far, with the head holding the best score so far and the first player's ID and score. |
| `Winners.ScanFirst` | dg/dg.go:108-114 | Scanning the first player leaves that player, or still the creation-time copy of it, as the only winner. |
| `Winners.ScanBeaten` | dg/dg.go:109-110 | A player beating the best score restarts the list with itself. |
| `Winners.ScanTied` | dg/dg.go:111-112 | A tying player other than the first is appended, in step with the winners of the players scanned so far. |
| `DiceGame.Game.GetWinners` | dg/dg.go:106-115 | Starting from the creation-time copy of the first player: the list is non-empty and gives, in roster order, the ID and score of every player holding the top score; after the head it is exactly those players. |
| `DiceGame.Game.RollAll` | dg/dg.go:154-158 | Every player with dice who is not eliminated rolls its injected faces; nobody else changes. |
| `DiceGame.Game.PlayRound` | dg/dg.go:150-177 | One turn of `Play`: the roster becomes `Evaluated` of the rolled roster. The bookkeeping stays valid, the remaining count only falls, scores only rise and flags only get set. The game ends iff at most one player remains, and then the winners are the top scorers. |
| `DiceGame.CreatePlayers` | dg/dg.go:183-197 | An error iff the player count is negative; otherwise exactly that many players, IDs 1..n in order, each with no score, not eliminated and holding the given number of dice showing 0. |
| `DiceGame.NewPlayersReady` | dg/dg.go:189-195 | The roster `CreatePlayers` builds has IDs 1..n, distinct and non-negative, and consistent bookkeeping with everybody remaining. |
| `DiceGame.CreateGame` | dg/dg.go:199-216 | An error iff the roster is nil; otherwise a new game over exactly that roster, everybody remaining, the first player as the only winner so far. It is ready to play when the IDs are sound and nobody is eliminated. |
| `Scenarios.TwoPlayers` | dg/dg.go:63-80 | With IDs 1 and 2, each player receives the other's 1s. |
| `Scenarios.SingleDie` | dg/dg.go:50-60 | A one-die hand keeps its die unless it is a 1 or a 6, and the counters read accordingly. |
| `Scenarios.TwoSixesTie` | dg/dg.go:43-115 | Two players each rolling a single 6 both score six, are both eliminated in the same round, and are both winners. |
| `Scenarios.OnePassedOn` | dg/dg.go:43-89 | A single 1 held by the first of two players goes to the second player, behind its own die, and the first player is eliminated. |
| `Scenarios.OnePassedOnTransfers` | dg/dg.go:46-80 | The first two passes of that round, as a roster. |

## Left out

- Randomness: `rand.Intn(6) + 1` in `rollDice` is replaced by faces passed in as a parameter, each in 1..6.
- The unbounded loop of `Play`: a hand that keeps rolling 2 to 5 never empties, so the game need not end. The model proves one turn (`PlayRound`) and its invariants, which any number of turns preserves.
- `time.Sleep`, the `TimeDelay` setting and its scaling by `time.Second` are wall-clock concerns. The game holds no delay field.
- Terminal output: `announceTheWinners`, `convertDiceToString` and the `fmt` narration of `Play` only display state. The winner announcement reads only IDs and scores, which is what `GetWinners` is stated on.
- Go slice aliasing: `CreateGame` stores the caller's slice, and the creation-time copy in `Winners` shares its dice array with the first player. The model works on values, so updates made through one alias are not visible through the other. No rule reads the dice of a winner.
- DiceGame.Game.Evaluate: requires distinct IDs, and no negative ID on a player holding 1s. The Go code sizes the roster by the number of distinct IDs in its counter map, and indexes the roster by a player's ID. Rosters violating this (which `CreatePlayers` never builds) would index out of range or use the wrong size, and are not modelled.
- DiceGame.Game.GetWinners: requires that the list holds one copy of the first player, with the same ID and a score no higher, and that no other player shares that ID. This is the state `CreateGame` leaves, since scores only rise. The head entry is stated by ID and score only, because it may still be that stale copy, whose dice and flag are out of date.
- DiceGame.CreatePlayers: a negative dice count with at least one player makes `make` panic in Go, so it is excluded by the precondition.
- DiceGame.CreateGame: a non-nil empty roster panics on `ps[0]` in Go, so it is excluded by the precondition.
- DiceGame.PlayRound: requires consistent bookkeeping, distinct non-negative IDs and the creation-time winner list, all of which `CreatePlayers` and `CreateGame` establish. It also requires one face in 1..6 per die of every player who rolls.
- Integer width: scores and counters are unbounded integers. Wrap-around of Go's 64-bit `int` is not modelled.
