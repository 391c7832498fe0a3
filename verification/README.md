# Tichu score keeper — a Dafny model

A model of the score keeper for the card game Tichu. Four players sit in
two partnerships, Team A and Team B. Each round the table enters its card
points (which sum to 100), any player's Tichu (±100) or Grand Tichu (±200)
call with whether it succeeded, and whether one team won a double victory
(a flat 200 to 0). The first team to reach 1000 wins the match.

The model covers five pieces of the program:

- **The match engine** (`src/hooks/useTichuGame.ts`, module `Game`).
  - Starting a match; refused unless there are exactly four players.
  - Recording a round: add its delta, append it to the log, move the dealer
    on, and decide the winner (Team A is checked first).
  - Undoing the last round: drop it, re-score the rest of the log from zero,
    move the dealer back, and reopen the match.
  - Resetting, the current dealer, and the players of a team.
- **The per-round scoring rules** (module `Scoring`). The engine and the history
  view both compute a round's delta, but they do it differently:
  - The engine adds the calls to the card points and then lets a decided
    double victory replace the whole pair, so the calls are discarded.
  - The history view starts from 200/0 and adds the calls on top.

  Both rules are defined here, with the fold that sums either one over a round
  log, and lemmas that say exactly when the two agree.
- **The round history view** (`src/components/tichu/RoundHistory.tsx`, module
  `History`). It shows one row per round, with that round's delta and the
  running totals.
- **The round entry form** (`src/components/tichu/RoundForm.tsx`, module `RoundForm`).
  - Two `Map`s hold the per-player calls and their outcomes. They are modelled
    as insertion-ordered association lists in module `OrderedMap`.
  - Typing Team A's points fills Team B's field with 100 − A. Team B's typed
    value is replaced by 100 − A while Team A's field holds text, there is no
    double victory and A ≤ 100.
  - The double-victory controls.
  - The submit handler. It is the only place where a round is validated:
    the engine's `recordRound` accepts any round.
- **Player setup** (`src/components/tichu/PlayerSetup.tsx`, module `PlayerSetup`).
  - Names are trimmed.
  - Blank names and names that collide once lower-cased are rejected.
  - Players are seated A, B, A, B, and the first Team A player deals first.

The data types of `src/types/tichu.ts` are in module `TichuTypes`. The call
value `'None'` is named `NoCall`, so that it does not clash with
`Option.None`. JavaScript `null` is modelled as `Option.None`. A card-point
text field is modelled as `Option<int>`:

- `None` while the field is empty;
- `Some(n)` once it holds text, where `n` is what `parseInt(text) || 0` yields.

JavaScript's `%` keeps the sign of the dividend, so `JsRemainder4` models it
as a truncated remainder.

Behaviours of the code worth knowing, which the model follows:

- In the engine, a double victory overrides the Tichu calls. Calls are added on
  top of the 200 only in the history view. `History.HistoryDivergesFromEngine`
  shows the two disagreeing.
- A double victory with no team chosen falls back to the card-point rule. It
  does not score 0/200.
- `recordRound` does not validate the round. Rejection happens only in
  `RoundForm.Submit`, and `RoundForm.SubmitRound` shows that a rejected form
  leaves the match untouched.
- An unresolved call (`success` null) contributes nothing, both when a round is
  recorded and when the log is re-scored on undo. So does a call whose index
  names no player.

## Model

| member | source | states |
|---|---|---|
| Scoring.CallPoints | src/hooks/useTichuGame.ts:86-108 | A call moves only the caller's team's score. It moves it by +value on success and −value on failure, where value is 200 for a Grand Tichu and 100 otherwise. A 'None', unresolved or out-of-range call gives nothing. |
| Scoring.ApplyCallsAddsAdjustments | src/hooks/useTichuGame.ts:82-108 | The call loop `Scoring.ApplyCalls`, which the engine and the view share, adds to its start pair exactly the sum of the calls' points. |
| Scoring.AdjustmentsAppend | src/hooks/useTichuGame.ts:86-108 | The calls' points split over a concatenation of call arrays. |
| Scoring.AdjustmentsOrderFree | src/hooks/useTichuGame.ts:86-108 | Any permutation of the call array yields the same adjustment. |
| Scoring.UncountedCallsAdjustNothing | src/hooks/useTichuGame.ts:87-89 | When no call is an actual, resolved call on an existing player, the calls adjust nothing. |
| Scoring.DoubleVictoryBaseMeaning | src/hooks/useTichuGame.ts:111-119 | A double victory for Team A is 200/0; for Team B it is 0/200. |
| Scoring.EngineRoundDelta | src/hooks/useTichuGame.ts:82-119 | With a double victory and a team chosen, the delta is exactly the 200/0 or 0/200 base, whatever the card points and calls. Otherwise it is the card points plus the calls' adjustments. |
| Scoring.HistoryBaseIsCallFreeEngineDelta | src/components/tichu/RoundHistory.tsx:17-29 | The view's starting pair is exactly what the engine would record for the same round with its calls left out. |
| Scoring.HistoryRoundDelta | src/components/tichu/RoundHistory.tsx:17-52 | The view's delta is its starting pair plus the calls' adjustments. A decided double victory therefore keeps the calls. |
| Scoring.HistoryVersusEngine | src/components/tichu/RoundHistory.tsx:20-52 | Without a decided double victory, the view and the engine compute the same delta. With one, the view's delta is the engine's plus the calls' adjustments. The two deltas are equal exactly when the rules agree on the round. |
| Scoring.TotalAppend | src/hooks/useTichuGame.ts:166-208 | The fold of a rule over a log splits over concatenation. |
| Scoring.TotalCons | src/hooks/useTichuGame.ts:169-208 | A log's total is its first round's delta plus the total of the rest. |
| Scoring.TotalsAgree | src/components/tichu/RoundHistory.tsx:54-55 | If the two rules agree on every round, their totals over the log agree. |
| Scoring.DoubleVictoryExample | src/hooks/useTichuGame.ts:111-119 | A Team B double victory with 60/40 entered scores 0/200. |
| Scoring.GrandTichuExample | src/hooks/useTichuGame.ts:91-105 | A Team A Grand Tichu on 30/70 scores 230/70 if it succeeds and −170/70 if it fails. |
| Scoring.DoubleVictoryWithTichuDiverges | src/components/tichu/RoundHistory.tsx:20-52 | For a decided double victory with one successful counted call, the view's delta exceeds the engine's by the call's value. |
| Game.JsRemainder4 | src/hooks/useTichuGame.ts:125 | `x % 4` truncates toward zero. The result lies strictly between −4 and 4, has the sign of `x`, and differs from `x` by a multiple of 4. |
| Game.DealerStepsCancel | src/hooks/useTichuGame.ts:211 | From any seat, stepping the dealer forward and then back returns to that seat, and both steps stay within seats 0 to 3. |
| Game.InitializeGame | src/hooks/useTichuGame.ts:54-67 | Fails exactly when there are not four players. Otherwise the match is in progress with those players, zero totals, no rounds, dealer 0 and no winner, and the state is consistent and well formed. |
| Game.DecideWinner | src/hooks/useTichuGame.ts:128-133 | Team A wins iff its total is at least 1000. Team B wins iff Team A's is not and Team B's is. There is no winner iff both are below 1000. |
| Game.RecordRound | src/hooks/useTichuGame.ts:75-143 | Outside a match in progress the state is unchanged. Otherwise the totals grow by the engine's delta, the round is appended, the players are kept, and the dealer moves one seat on. The winner is decided from the new totals, and the status is finished iff there is a winner. |
| Game.RefoldIsTotal | src/hooks/useTichuGame.ts:166-208 | The undo loop `Game.Refold`, re-scoring front to back from a start pair, adds exactly the engine rule summed over the log. |
| Game.UndoLastRound | src/hooks/useTichuGame.ts:157-224 | With no rounds it is a no-op. Otherwise it drops the last round and makes the totals the engine fold of the rest. It keeps the players, steps the dealer back, and forces an in-progress status with no winner. |
| Game.ResetGame | src/hooks/useTichuGame.ts:150-155 | Reset yields the initial state: no players, no rounds, zero totals, not started, no winner, dealer 0. |
| Game.ResetIsIdempotent | src/hooks/useTichuGame.ts:7-15 | Resetting twice is resetting once. The reset state is well formed and consistent. |
| Game.CurrentDealer | src/hooks/useTichuGame.ts:226-231 | The dealer is present exactly when the index names a player, and is then that player. With no players there is none. |
| Game.TeamPlayers | src/hooks/useTichuGame.ts:233-238 | The result holds exactly the players of that team and only players of that team. |
| Game.TeamPlayersAppend | src/hooks/useTichuGame.ts:235 | The team filter distributes over concatenation, so it keeps seating order. |
| Game.RoundNumberSteps | src/components/tichu/ScoreDisplay.tsx:12 | The shown round number follows the log. Recording in an open match moves it on by one, and a closed match keeps it. Undoing a round moves it back by one, and a reset match is on round 1. |
| Game.CanUndoOnlyInProgress | src/components/tichu/GameControls.tsx:20 | In a well-formed state the undo control is offered only while the match is in progress. |
| Game.UndoOfferedWhenEffective | src/components/tichu/GameControls.tsx:20 | While the match is open, the undo control `Game.CanUndo` is offered exactly when undoing would change the state. |
| Game.RecordKeepsConsistent | src/hooks/useTichuGame.ts:121-139 | Recording preserves totals == engine fold over the log. |
| Game.RecordKeepsWellFormed | src/hooks/useTichuGame.ts:121-142 | Recording preserves the state's shape. The dealer stays in 0..3, the winner is present iff the match is finished, and that winner is the one the totals decide. |
| Game.StepKeepsInvariant | src/hooks/useTichuGame.ts:54-224 | Every user action (start, record, undo, reset) preserves consistency and well-formedness. |
| Game.RunKeepsInvariant | src/hooks/useTichuGame.ts:54-224 | Any sequence of user actions preserves consistency and well-formedness. |
| Game.InitialStateIsSound | src/hooks/useTichuGame.ts:7-15 | The initial state is well formed and consistent. |
| Game.UndoRestores | src/hooks/useTichuGame.ts:157-224 | Undoing the last round of a log that extends a consistent open match by one round gives back that match exactly, provided the dealer steps back to its seat. |
| Game.UndoRestoresTotals | src/hooks/useTichuGame.ts:166-208 | Re-scoring a log shortened by its last round gives back the consistent totals of the shorter log. |
| Game.UndoAfterRecord | src/hooks/useTichuGame.ts:121-224 | In a consistent match in progress, undoing a round just recorded restores the totals, rounds, dealer, status and winner exactly. |
| Game.UndoReopensWonMatch | src/hooks/useTichuGame.ts:219-220 | Undo reopens a finished match and clears its winner. |
| Game.RecordAllAfterEnd | src/hooks/useTichuGame.ts:77-79 | Once the match is not in progress, recording any number of rounds changes nothing. |
| Game.RecordAllSnoc | src/hooks/useTichuGame.ts:75-143 | Recording a log and then one more round is the same as recording the longer log. |
| Game.DealerAfterRecords | src/hooks/useTichuGame.ts:124-140 | When the match is open before each of K recorded rounds, the dealer moves K seats on mod 4 and the log grows by exactly those rounds. This includes a last round that ends the match. |
| History.SumScoresSnoc | src/components/tichu/RoundHistory.tsx:54-55 | Adding one more delta to the running sum adds it at the end. |
| History.HistoryTotalIsSum | src/components/tichu/RoundHistory.tsx:13-55 | The view's deltas add up to the history rule's fold over the log. |
| History.RowsFrom | src/components/tichu/RoundHistory.tsx:16-65 | One row per round, in order. Each row carries its round, the number index + 1 and that round's delta. |
| History.RunningTotalAt | src/components/tichu/RoundHistory.tsx:13-55 | Row i's running totals are the start value plus the sum of the deltas of rounds 0..i. |
| History.HistoryRowsOfState | src/components/tichu/RoundHistory.tsx:12-65 | For a match state, `History.RoundsWithTotals` shows one row per round in log order, numbered from 1, with the view's delta. Each row's running totals equal the history rule's fold over the rounds up to and including that one. |
| History.UncountedCallsAgree | src/components/tichu/RoundHistory.tsx:32-35 | A round whose calls all count for nothing in a decided double victory is scored alike by the view and the engine. |
| History.HistoryMatchesEngine | src/components/tichu/RoundHistory.tsx:54-55 | In a consistent state where the rules agree on every round, the last row shows exactly the engine's totals. |
| History.HistoryMatchesWithoutDoubleVictoryCalls | src/components/tichu/RoundHistory.tsx:20-55 | In a consistent state where no decided double-victory round has a call that counts, the last row shows exactly the engine's totals. |
| History.SingleRoundRow | src/components/tichu/RoundHistory.tsx:13-59 | With one round in the log, the only row's running totals are that round's delta under the view's rule. |
| History.HistoryDivergesFromEngine | src/components/tichu/RoundHistory.tsx:20-52 | Recording a double victory with a successful counted Tichu on a fresh match makes the view's last row exceed the engine's totals by the call's value. |
| OrderedMap.Get | src/components/tichu/RoundForm.tsx:83 | `map.get(k)` is present exactly when the map holds the key; `OrderedMap.GetFindsEntry` says which value it yields. |
| OrderedMap.GetFindsEntry | src/components/tichu/RoundForm.tsx:83-99 | In a map holding each key once, `map.get(k)` yields exactly the value stored with `k`. |
| OrderedMap.Set | src/components/tichu/RoundForm.tsx:49-50 | After `map.set(k, v)`, `k` maps to `v` and every other key is unchanged. No entry appears that was not there or is not the new one. |
| OrderedMap.SetKeepsOrder | src/components/tichu/RoundForm.tsx:94 | Setting a held key keeps the key order. Setting a new key appends it at the end of the iteration order. |
| OrderedMap.SetKeepsDistinct | src/components/tichu/RoundForm.tsx:49-50 | Setting a key never makes a key appear twice. |
| OrderedMap.Delete | src/components/tichu/RoundForm.tsx:46-47 | After `map.delete(k)` the key is absent and every other key is unchanged. The entries are the old ones without `k`, and keys stay distinct; `OrderedMap.DeleteRemovesEntry` pins their order. |
| OrderedMap.DeleteKeepsOrder | src/components/tichu/RoundForm.tsx:46-47 | Deleting from a concatenation deletes from each part, so the entries that stay keep their relative order. |
| OrderedMap.DeleteSingle | src/components/tichu/RoundForm.tsx:46-47 | A single entry is dropped exactly when it carries the deleted key. |
| OrderedMap.DeleteAbsent | src/components/tichu/RoundForm.tsx:46-47 | Deleting a key the map does not hold leaves the map as it was. |
| OrderedMap.DeleteRemovesEntry | src/components/tichu/RoundForm.tsx:46-47 | In a map holding each key once, deleting the key at position i leaves exactly the entries before i followed by those after i, in order. |
| RoundForm.ChooseCall | src/components/tichu/RoundForm.tsx:41-55 | Choosing 'None' removes the player from both maps. Choosing a call records it and resets its outcome to unresolved. Other players and the other fields are unchanged. |
| RoundForm.ChooseCallKeepsCallsWellFormed | src/components/tichu/RoundForm.tsx:41-55 | Choosing a call keeps both maps free of repeated keys, keeps 'None' out of the call map, and keeps every called player in the outcome map. |
| RoundForm.ResolveCall | src/components/tichu/RoundForm.tsx:57-61 | Setting an outcome changes only that player's outcome entry and keeps the maps well formed. |
| RoundForm.ChangeTeamACardPoints | src/components/tichu/RoundForm.tsx:133-144 | Team A's field takes the typed value. Without a double victory, Team B's field becomes the complement to 100 when A is at most 100, and is cleared otherwise. With a double victory it is untouched. |
| RoundForm.ChangeTeamBCardPoints | src/components/tichu/RoundForm.tsx:122-131 | If Team A's field holds text, no double victory is set and A is at most 100, Team B's field is overwritten with the complement to 100. Otherwise it takes the typed value. |
| RoundForm.ToggleDoubleVictory | src/components/tichu/RoundForm.tsx:306-314 | Checking clears both card-point fields. Unchecking clears the chosen team. The call maps are untouched. |
| RoundForm.ChooseDoubleVictoryTeam | src/components/tichu/RoundForm.tsx:321-344 | A team radio button holds the picked team and leaves every other field of the form as it was. |
| RoundForm.FirstUnresolved | src/components/tichu/RoundForm.tsx:82-90 | Finds the first call in map order whose outcome is the explicit unresolved marker; every call before it is resolved. It finds none exactly when every call is resolved. |
| RoundForm.AllResolvedCons | src/components/tichu/RoundForm.tsx:82-90 | The calls are all resolved exactly when the first one is and the rest are. |
| RoundForm.OutcomeOf | src/components/tichu/RoundForm.tsx:99 | `get(i) ?? null` is present exactly when the map holds a resolved outcome for i, and is then that outcome. |
| RoundForm.BuildCalls | src/components/tichu/RoundForm.tsx:93-102 | Every submitted call is an actual call of a player in the call map and carries that player's outcome. |
| RoundForm.BuildCallsCovers | src/components/tichu/RoundForm.tsx:94-101 | Every non-'None' entry of the call map reaches the submitted array. |
| RoundForm.BuildCallsDistinct | src/components/tichu/RoundForm.tsx:93-102 | The submitted array never names a player twice. |
| RoundForm.Submit | src/components/tichu/RoundForm.tsx:63-120 | Rejects card points not summing to 100 outside a double victory, and a double victory with no team. When both checks pass but a call is unresolved, it rejects and names the first unresolved call in map order. Accepts exactly when none of these applies. An accepted round carries the card values and the built calls. It carries the double-victory flag, and the chosen team with a double victory and no team without one. The form resets. |
| RoundForm.SubmitRound | src/components/tichu/RoundForm.tsx:104-119 | A rejected submission leaves the match and the form as they were. An accepted one records the round and resets the form. |
| RoundForm.ChosenTeamIsSubmitted | src/components/tichu/RoundForm.tsx:76-119 | With a double victory checked, picking a team gets the form past the team check. If every call is resolved, the form is accepted and the round carries that team as a decided double victory. |
| RoundForm.SubmittedCallsResolved | src/components/tichu/RoundForm.tsx:82-102 | From a well-formed form every submitted call is resolved, counts when it names a seat, and names a distinct player. |
| RoundForm.EventsKeepCallsWellFormed | src/components/tichu/RoundForm.tsx:41-61 | Any sequence of form edits keeps the call maps well formed. |
| RoundForm.AcceptedRoundsAreValid | src/components/tichu/RoundForm.tsx:63-120 | Whatever edits precede it, an accepted round is valid. Its card points sum to 100 unless it is a double victory, and it has a team exactly when it is one. Every call is an actual, resolved call, and no player appears twice. |
| PlayerSetup.LeadingSpaces | src/components/tichu/PlayerSetup.tsx:25 | The length of the maximal run of whitespace opening the string. |
| PlayerSetup.TrailingSpaces | src/components/tichu/PlayerSetup.tsx:25 | The length of the maximal run of whitespace closing the string. |
| PlayerSetup.Trim | src/components/tichu/PlayerSetup.tsx:25-28 | The trimmed name is empty exactly when the input is all whitespace. Otherwise it is the slice between the two whitespace runs, and neither of its ends is whitespace. |
| PlayerSetup.TrimIsIdempotent | src/components/tichu/PlayerSetup.tsx:25-28 | Trimming twice is trimming once. |
| PlayerSetup.ToLower | src/components/tichu/PlayerSetup.tsx:38 | Lower-casing maps each character independently and keeps the length. |
| PlayerSetup.ToLowerMeaning | src/components/tichu/PlayerSetup.tsx:38 | No capital A to Z survives lower-casing, every other character is kept, and lowering twice is lowering once. |
| PlayerSetup.ElementSetSize | src/components/tichu/PlayerSetup.tsx:39 | The set of names is never larger than the list. It is exactly as large iff no name repeats. |
| PlayerSetup.SeatingOrder | src/components/tichu/PlayerSetup.tsx:24-29 | Four players in the order A1, B1, A2, B2, with teams A, B, A, B and each name the trimmed input of its field. |
| PlayerSetup.LoweredNamesDistinct | src/components/tichu/PlayerSetup.tsx:38-39 | The lower-cased names are free of repeats exactly when no two players' names are the same up to the case of A to Z. |
| PlayerSetup.ToLowerIdentifies | src/components/tichu/PlayerSetup.tsx:38 | Two names lower-case alike exactly when they differ at most in the case of A to Z. |
| PlayerSetup.StartPlayers | src/components/tichu/PlayerSetup.tsx:19-45 | Rejects iff a trimmed name is empty. Otherwise rejects as duplicate iff two lower-cased names agree. When accepted, yields the seating order with non-empty, case-insensitively distinct names. |
| PlayerSetup.TeamsOfSeating | src/components/tichu/PlayerSetup.tsx:24-29 | In the seating order, Team A's players are seats 0 and 2 and Team B's are seats 1 and 3. |
| PlayerSetup.SetupStartsMatch | src/components/tichu/PlayerSetup.tsx:22-44 | An accepted setup starts a match in progress, with the first Team A player dealing and two players per team in seating order. |

## Left out

- Browser storage is not modelled: loading, saving and removing the saved state in `localStorage`, the JSON-parse fallback and the hydration effect. Callers are given the state instead.
- React plumbing is not modelled: `useState`, `useCallback`, `useEffect`, contexts and routes. Each handler is a pure function of the form state. Rendering and the alert texts are out; only which error is raised is modelled. The browser's own checks on the card-point inputs are not modelled either: the `required`, `min="0"` and `max="100"` attributes at src/components/tichu/RoundForm.tsx:276-281 and 290-296 can block a submission before the submit handler runs. For example, an empty Team A field with Team B at 100 is blocked by the browser, but `RoundForm.Submit` accepts it.
- The two-step "calls recorded" flag of the round form, its focus timeout, and the button that goes back to the call step are left out. They only change which controls are shown.
- `parseInt` on the card-point text is not modelled. A field is the number `parseInt(text) || 0` would yield, or empty.
- The double-victory checkbox's `'indeterminate'` state is not modelled; the checkbox is modelled as a plain boolean.
- The history view's `round.playerTichuCalls || []` fallback is not modelled, because the type makes the array mandatory.
- JavaScript numbers are modelled as unbounded integers. No round's totals come near the limits of double precision.
- PlayerSetup.ToLower: lower-cases only the letters A to Z. JavaScript's `toLowerCase` also maps non-ASCII capitals, so two names that differ only in non-ASCII case are treated as distinct here.
- PlayerSetup.ToLowerMeaning: inherits that restriction. It shows only that no A to Z survives; a non-ASCII capital such as `É` is kept as it is.
- `src/contexts/TichuGameContext.tsx`, `src/routes/__root.tsx` and `src/routes/index.tsx` are not part of this model: they only wire the pieces together. The score and controls components contribute only the round number and the undo guard.
