/** The match engine of the score keeper (useTichuGame.ts): starting a
    match, recording a round, undoing the last round, resetting, and the two
    read-only queries. Each operation is a pure transition of `GameState`;
    persistence is left to the caller. */
module Game {
  import opened Outcomes
  import opened TichuTypes
  import opened Scoring

  /** The score at which a team wins. */
  const WinningScore := 1000

  /** The empty state the engine starts from and returns to on reset. */
  const InitialGameState := GameState([], 0, 0, [], 0, NotStarted, None)

  /** JavaScript's `x % 4`: the remainder truncated toward zero, so it
      takes the sign of the dividend. */
  function JsRemainder4(x: int): (r: int)
    ensures -4 < r < 4
    ensures x >= 0 ==> r >= 0
    ensures x <= 0 ==> r <= 0
    ensures (x - r) % 4 == 0
  {
    if x >= 0 then x % 4 else -((-x) % 4)
  }

  /** Stepping the dealer back after stepping it forward returns to the
      same seat, and both steps stay within the four seats. */
  lemma DealerStepsCancel(d: int)
    requires 0 <= d < 4
    ensures 0 <= JsRemainder4(d + 1) < 4
    ensures 0 <= JsRemainder4(d - 1 + 4) < 4
    ensures JsRemainder4(JsRemainder4(d + 1) - 1 + 4) == d
  {
    assert d == 0 || d == 1 || d == 2 || d == 3;
  }

  /** The totals agree with the log: they are the engine rule summed over
      the recorded rounds. */
  predicate Consistent(s: GameState) {
    var t := Total(EngineRule, s.players, s.rounds);
    s.teamAScore == t.a && s.teamBScore == t.b
  }

  /** The shape every state built by the operations keeps. */
  predicate WellFormed(s: GameState) {
    && 0 <= s.currentDealerIndex < 4
    && (s.winner.Some? <==> s.gameStatus == Finished)
    && (s.gameStatus == Finished ==> s.winner == DecideWinner(s.teamAScore, s.teamBScore))
    && (s.gameStatus == NotStarted ==> s.rounds == [])
    && (s.gameStatus != NotStarted ==> |s.players| == 4)
  }

  datatype GameError = InvalidPlayerCount

  /** Starts a match: refuses any player list that is not exactly four
      long, otherwise a fresh in-progress state with zero totals, no rounds
      and player 0 dealing. */
  function InitializeGame(players: seq<Player>): (r: Result<GameState, GameError>)
    ensures r.Failure? <==> |players| != 4
    ensures r.Failure? ==> r.error == InvalidPlayerCount
    ensures r.Success? ==>
              && r.value.players == players
              && r.value.teamAScore == 0 && r.value.teamBScore == 0
              && r.value.rounds == []
              && r.value.currentDealerIndex == 0
              && r.value.gameStatus == InProgress && r.value.winner == None
              && Consistent(r.value) && WellFormed(r.value)
  {
    if |players| != 4 then Failure(InvalidPlayerCount)
    else Success(GameState(players, 0, 0, [], 0, InProgress, None))
  }

  /** Team A wins as soon as it reaches the winning score; Team B only when
      Team A has not. */
  function DecideWinner(teamAScore: int, teamBScore: int): (w: Option<Team>)
    ensures w == Some(TeamA) <==> teamAScore >= WinningScore
    ensures w == Some(TeamB) <==> teamAScore < WinningScore && teamBScore >= WinningScore
    ensures w == None <==> teamAScore < WinningScore && teamBScore < WinningScore
  {
    if teamAScore >= WinningScore then Some(TeamA)
    else if teamBScore >= WinningScore then Some(TeamB)
    else None
  }

  /** Records a round. Only a match in progress changes; the round is not
      validated here. */
  function RecordRound(s: GameState, round: RoundResult): (t: GameState)
    ensures s.gameStatus != InProgress ==> t == s
    ensures s.gameStatus == InProgress ==>
              var d := EngineRoundDelta(s.players, round);
              && t.teamAScore == s.teamAScore + d.a
              && t.teamBScore == s.teamBScore + d.b
              && t.rounds == s.rounds + [round]
              && t.players == s.players
              && t.currentDealerIndex == JsRemainder4(s.currentDealerIndex + 1)
              && t.winner == DecideWinner(t.teamAScore, t.teamBScore)
              && (t.gameStatus == Finished <==> t.winner.Some?)
              && (t.gameStatus != Finished ==> t.gameStatus == InProgress)
  {
    if s.gameStatus != InProgress then s
    else
      var d := EngineRoundDelta(s.players, round);
      var a, b := s.teamAScore + d.a, s.teamBScore + d.b;
      var winner := DecideWinner(a, b);
      s.(teamAScore := a,
         teamBScore := b,
         rounds := s.rounds + [round],
         currentDealerIndex := JsRemainder4(s.currentDealerIndex + 1),
         gameStatus := if winner.Some? then Finished else InProgress,
         winner := winner)
  }

  /** The undo loop: re-scores the rounds front to back from `acc`. */
  function Refold(players: seq<Player>, rounds: seq<RoundResult>, acc: Score): Score
    decreases |rounds|
  {
    if |rounds| == 0 then acc
    else Refold(players, rounds[1..], Plus(acc, EngineRoundDelta(players, rounds[0])))
  }

  /** The undo loop computes the same totals as the log fold. */
  lemma {:induction false} RefoldIsTotal(players: seq<Player>, rounds: seq<RoundResult>, acc: Score)
    ensures Refold(players, rounds, acc) == Plus(acc, Total(EngineRule, players, rounds))
    decreases |rounds|
  {
    if |rounds| > 0 {
      var d := RoundDelta(EngineRule, players, rounds[0]);
      RefoldIsTotal(players, rounds[1..], Plus(acc, d));
      TotalCons(EngineRule, players, rounds);
      var rest := Total(EngineRule, players, rounds[1..]);
      assert Plus(Plus(acc, d), rest) == Plus(acc, Plus(d, rest));
    }
  }

  /** Undoes the last round: drops it, recomputes the totals from the
      remaining log, steps the dealer back, and always reopens the match. */
  function UndoLastRound(s: GameState): (t: GameState)
    ensures |s.rounds| == 0 ==> t == s
    ensures |s.rounds| > 0 ==>
              && t.rounds == s.rounds[..|s.rounds| - 1]
              && Consistent(t)
              && t.players == s.players
              && t.currentDealerIndex == JsRemainder4(s.currentDealerIndex - 1 + 4)
              && t.gameStatus == InProgress && t.winner == None
  {
    if |s.rounds| == 0 then s
    else
      var rest := s.rounds[..|s.rounds| - 1];
      RefoldIsTotal(s.players, rest, Zero);
      var total := Refold(s.players, rest, Zero);
      s.(teamAScore := total.a,
         teamBScore := total.b,
         rounds := rest,
         currentDealerIndex := JsRemainder4(s.currentDealerIndex - 1 + 4),
         gameStatus := InProgress,
         winner := None)
  }

  /** Reset discards the match, whatever it was. */
  function ResetGame(s: GameState): (t: GameState)
    ensures t.players == [] && t.rounds == []
    ensures t.teamAScore == 0 && t.teamBScore == 0
    ensures t.gameStatus == NotStarted && t.winner == None
    ensures t.currentDealerIndex == 0
  {
    InitialGameState
  }

  lemma ResetIsIdempotent(s: GameState)
    ensures ResetGame(ResetGame(s)) == ResetGame(s)
    ensures WellFormed(ResetGame(s)) && Consistent(ResetGame(s))
  {
  }

  /** The player whose turn it is to deal, if the index names one. */
  function CurrentDealer(s: GameState): (p: Option<Player>)
    ensures p.Some? <==> 0 <= s.currentDealerIndex < |s.players|
    ensures p.Some? ==> p.value == s.players[s.currentDealerIndex]
    ensures |s.players| == 0 ==> p.None?
  {
    if |s.players| == 0 then None
    else if 0 <= s.currentDealerIndex < |s.players| then Some(s.players[s.currentDealerIndex])
    else None
  }

  /** The players of one team, in seating order. */
  function TeamPlayers(players: seq<Player>, team: Team): (r: seq<Player>)
    ensures |r| <= |players|
    ensures forall i :: 0 <= i < |r| ==> r[i].team == team
    ensures forall p :: p in r <==> p in players && p.team == team
    decreases |players|
  {
    if |players| == 0 then []
    else if players[0].team == team then [players[0]] + TeamPlayers(players[1..], team)
    else TeamPlayers(players[1..], team)
  }

  /** Filtering keeps seating order across concatenation. */
  lemma {:induction false} TeamPlayersAppend(xs: seq<Player>, ys: seq<Player>, team: Team)
    ensures TeamPlayers(xs + ys, team) == TeamPlayers(xs, team) + TeamPlayers(ys, team)
    decreases |xs|
  {
    if |xs| == 0 {
      assert xs + ys == ys;
    } else {
      assert (xs + ys)[0] == xs[0];
      assert (xs + ys)[1..] == xs[1..] + ys;
      TeamPlayersAppend(xs[1..], ys, team);
    }
  }

  /** The undo button is offered only with a round to undo and no winner. */
  predicate CanUndo(s: GameState) {
    |s.rounds| > 0 && s.gameStatus != Finished
  }

  /** The round being played is one past the rounds recorded. */
  function RoundNumber(s: GameState): (n: int)
    ensures n >= 1
    ensures n - 1 == |s.rounds|
  {
    |s.rounds| + 1
  }

  /** The round counter follows the log: recording in an open match moves
      it on by one, undoing a round moves it back by one, and a reset
      match is on round 1 again. */
  lemma RoundNumberSteps(s: GameState, round: RoundResult)
    ensures s.gameStatus == InProgress ==> RoundNumber(RecordRound(s, round)) == RoundNumber(s) + 1
    ensures s.gameStatus != InProgress ==> RoundNumber(RecordRound(s, round)) == RoundNumber(s)
    ensures |s.rounds| > 0 ==> RoundNumber(UndoLastRound(s)) == RoundNumber(s) - 1
    ensures RoundNumber(ResetGame(s)) == 1
  {
  }

  lemma CanUndoOnlyInProgress(s: GameState)
    requires WellFormed(s) && CanUndo(s)
    ensures s.gameStatus == InProgress
  {
  }

  /** While the match is open, the undo control is offered exactly when
      undoing would change the state. */
  lemma UndoOfferedWhenEffective(s: GameState)
    requires s.gameStatus == InProgress
    ensures CanUndo(s) <==> UndoLastRound(s) != s
  {
    if CanUndo(s) {
      assert |UndoLastRound(s).rounds| < |s.rounds|;
    }
  }

  /** The operations a user can trigger. */
  datatype Action = Start(players: seq<Player>) | Record(round: RoundResult) | Undo | Reset

  /** One user action. A start the engine refuses throws, leaving the
      state as it was. */
  function Step(s: GameState, a: Action): GameState {
    match a
    case Start(players) =>
      (match InitializeGame(players)
       case Success(t) => t
       case Failure(_) => s)
    case Record(round) => RecordRound(s, round)
    case Undo => UndoLastRound(s)
    case Reset => ResetGame(s)
  }

  function Run(s: GameState, actions: seq<Action>): GameState
    decreases |actions|
  {
    if |actions| == 0 then s else Run(Step(s, actions[0]), actions[1..])
  }

  /** Recording a round keeps the totals equal to the log fold. */
  lemma RecordKeepsConsistent(s: GameState, round: RoundResult)
    requires Consistent(s)
    ensures Consistent(RecordRound(s, round))
  {
    if s.gameStatus == InProgress {
      var t := RecordRound(s, round);
      assert t.rounds[..|t.rounds| - 1] == s.rounds;
      assert t.rounds[|t.rounds| - 1] == round;
    }
  }

  lemma RecordKeepsWellFormed(s: GameState, round: RoundResult)
    requires WellFormed(s)
    ensures WellFormed(RecordRound(s, round))
  {
  }

  lemma StepKeepsInvariant(s: GameState, a: Action)
    requires WellFormed(s) && Consistent(s)
    ensures WellFormed(Step(s, a)) && Consistent(Step(s, a))
  {
    match a
    case Start(players) =>
    case Record(round) =>
      RecordKeepsConsistent(s, round);
      RecordKeepsWellFormed(s, round);
    case Undo =>
    case Reset =>
  }

  /** Every sequence of user actions from the initial state keeps the
      totals equal to the log fold and the state well formed. */
  lemma {:induction false} RunKeepsInvariant(s: GameState, actions: seq<Action>)
    requires WellFormed(s) && Consistent(s)
    ensures WellFormed(Run(s, actions)) && Consistent(Run(s, actions))
    decreases |actions|
  {
    if |actions| > 0 {
      StepKeepsInvariant(s, actions[0]);
      RunKeepsInvariant(Step(s, actions[0]), actions[1..]);
    }
  }

  lemma InitialStateIsSound()
    ensures WellFormed(InitialGameState) && Consistent(InitialGameState)
  {
  }

  /** Undoing the last round of a log that extends a consistent open
      match by one round, with the dealer one step back at the match's
      seat, gives back that match. */
  lemma UndoRestores(s: GameState, t: GameState, round: RoundResult)
    requires Consistent(s) && s.gameStatus == InProgress && s.winner == None
    requires t.rounds == s.rounds + [round] && t.players == s.players
    requires JsRemainder4(t.currentDealerIndex - 1 + 4) == s.currentDealerIndex
    ensures UndoLastRound(t) == s
  {
    UndoRestoresTotals(s, t, round);
    UndoRestoresShape(s, t, round);
    SameState(UndoLastRound(t), s);
  }

  /** The rest of UndoRestores: the undo keeps the players, puts the dealer
      back on its seat and leaves an open match with no winner. */
  lemma UndoRestoresShape(s: GameState, t: GameState, round: RoundResult)
    requires s.gameStatus == InProgress && s.winner == None
    requires t.rounds == s.rounds + [round] && t.players == s.players
    requires JsRemainder4(t.currentDealerIndex - 1 + 4) == s.currentDealerIndex
    ensures UndoLastRound(t).players == s.players
    ensures UndoLastRound(t).currentDealerIndex == s.currentDealerIndex
    ensures UndoLastRound(t).gameStatus == s.gameStatus && UndoLastRound(t).winner == s.winner
  {
  }

  /** Two states agreeing field by field are the same state. */
  lemma SameState(u: GameState, s: GameState)
    requires u.players == s.players && u.rounds == s.rounds
    requires u.teamAScore == s.teamAScore && u.teamBScore == s.teamBScore
    requires u.currentDealerIndex == s.currentDealerIndex
    requires u.gameStatus == s.gameStatus && u.winner == s.winner
    ensures u == s
  {
  }

  /** The totals half of UndoRestores: re-scoring the shorter log gives
      back the consistent totals it started from. */
  lemma UndoRestoresTotals(s: GameState, t: GameState, round: RoundResult)
    requires Consistent(s)
    requires t.rounds == s.rounds + [round] && t.players == s.players
    ensures UndoLastRound(t).rounds == s.rounds
    ensures UndoLastRound(t).teamAScore == s.teamAScore && UndoLastRound(t).teamBScore == s.teamBScore
  {
    assert t.rounds[..|t.rounds| - 1] == s.rounds;
  }

  /** Undoing a round just recorded restores the state exactly. */
  lemma UndoAfterRecord(s: GameState, round: RoundResult)
    requires WellFormed(s) && Consistent(s) && s.gameStatus == InProgress
    ensures UndoLastRound(RecordRound(s, round)) == s
  {
    var t := RecordRound(s, round);
    DealerStepsCancel(s.currentDealerIndex);
    UndoRestores(s, t, round);
  }

  /** Undo reopens a finished match even when its remaining totals still
      reach the winning score. */
  lemma UndoReopensWonMatch(s: GameState)
    requires |s.rounds| > 0 && s.gameStatus == Finished
    ensures UndoLastRound(s).gameStatus == InProgress
    ensures UndoLastRound(s).winner == None
  {
  }

  /** Records every round of `rounds` in turn. */
  function RecordAll(s: GameState, rounds: seq<RoundResult>): GameState
    decreases |rounds|
  {
    if |rounds| == 0 then s else RecordAll(RecordRound(s, rounds[0]), rounds[1..])
  }

  lemma {:induction false} RecordAllAfterEnd(s: GameState, rounds: seq<RoundResult>)
    requires s.gameStatus != InProgress
    ensures RecordAll(s, rounds) == s
    decreases |rounds|
  {
    if |rounds| > 0 {
      RecordAllAfterEnd(RecordRound(s, rounds[0]), rounds[1..]);
    }
  }

  /** Recording a log and then one more round is recording the longer log. */
  lemma {:induction false} RecordAllSnoc(s: GameState, rounds: seq<RoundResult>, last: RoundResult)
    ensures RecordAll(s, rounds + [last]) == RecordRound(RecordAll(s, rounds), last)
    decreases |rounds|
  {
    if |rounds| == 0 {
      assert rounds + [last] == [last] && [last][1..] == [];
    } else {
      assert (rounds + [last])[0] == rounds[0];
      assert (rounds + [last])[1..] == rounds[1..] + [last];
      RecordAllSnoc(RecordRound(s, rounds[0]), rounds[1..], last);
    }
  }

  /** One more dealer step after `n` steps from seat `d` is `n + 1` steps. */
  lemma DealerStep(d: int, n: int)
    requires 0 <= d < 4 && n >= 0
    ensures JsRemainder4((d + n) % 4 + 1) == (d + n + 1) % 4
  {
    var q := (d + n) % 4;
    if q == 3 {
      assert JsRemainder4(q + 1) == 0;
    } else {
      assert JsRemainder4(q + 1) == q + 1;
    }
  }

  /** A match open after one more round was open before it. */
  lemma OpenBeforeLast(s: GameState, rounds: seq<RoundResult>, last: RoundResult)
    requires RecordAll(s, rounds + [last]).gameStatus == InProgress
    ensures RecordAll(s, rounds).gameStatus == InProgress
  {
    RecordAllSnoc(s, rounds, last);
  }

  /** Recording one more round in an open match moves the dealer one more
      seat and appends the round. */
  lemma RecordOneMore(s: GameState, rounds: seq<RoundResult>, last: RoundResult)
    requires 0 <= s.currentDealerIndex < 4
    requires RecordAll(s, rounds).gameStatus == InProgress
    requires RecordAll(s, rounds).currentDealerIndex == (s.currentDealerIndex + |rounds|) % 4
    requires RecordAll(s, rounds).rounds == s.rounds + rounds
    ensures RecordAll(s, rounds + [last]).currentDealerIndex == (s.currentDealerIndex + |rounds| + 1) % 4
    ensures RecordAll(s, rounds + [last]).rounds == s.rounds + rounds + [last]
  {
    RecordAllSnoc(s, rounds, last);
    DealerStep(s.currentDealerIndex, |rounds|);
  }

  /** While the match is open before each of them, K recorded rounds move
      the dealer K seats on and extend the log by exactly those rounds. The
      round that ends the match moves the dealer too. */
  lemma {:induction false} DealerAfterRecords(s: GameState, rounds: seq<RoundResult>)
    requires s.gameStatus == InProgress && 0 <= s.currentDealerIndex < 4
    requires |rounds| > 0 ==> RecordAll(s, rounds[..|rounds| - 1]).gameStatus == InProgress
    ensures RecordAll(s, rounds).currentDealerIndex == (s.currentDealerIndex + |rounds|) % 4
    ensures RecordAll(s, rounds).rounds == s.rounds + rounds
    decreases |rounds|
  {
    if |rounds| == 0 {
      assert s.rounds + rounds == s.rounds;
    } else {
      var pre, last := rounds[..|rounds| - 1], rounds[|rounds| - 1];
      assert rounds == pre + [last];
      if |pre| > 0 {
        assert pre == pre[..|pre| - 1] + [pre[|pre| - 1]];
        OpenBeforeLast(s, pre[..|pre| - 1], pre[|pre| - 1]);
      }
      DealerAfterRecords(s, pre);
      RecordOneMore(s, pre, last);
    }
  }
}
