/** The round history view (RoundHistory.tsx): one row per recorded round,
    with that round's delta as the view computes it and the running totals
    up to and including it. The view recomputes deltas with its own rule,
    which differs from the engine's on double victories with Tichu calls. */
module History {
  import opened Outcomes
  import opened TichuTypes
  import opened Scoring
  import opened Game

  datatype HistoryRow = HistoryRow(
    round: RoundResult,
    roundNumber: int,
    roundTeamAScore: int,
    roundTeamBScore: int,
    runningTeamAScore: int,
    runningTeamBScore: int)

  /** The view's per-round deltas, in log order: the body of the
      `rounds.map` callback before the running totals are updated. */
  function HistoryDeltas(players: seq<Player>, rounds: seq<RoundResult>): (ds: seq<Score>)
    ensures |ds| == |rounds|
    ensures forall i :: 0 <= i < |rounds| ==> ds[i] == HistoryRoundDelta(players, rounds[i])
  {
    seq(|rounds|, i requires 0 <= i < |rounds| => HistoryRoundDelta(players, rounds[i]))
  }

  /** The sum of a list of deltas. */
  function SumScores(ds: seq<Score>): Score
    decreases |ds|
  {
    if |ds| == 0 then Zero else Plus(ds[0], SumScores(ds[1..]))
  }

  lemma {:induction false} SumScoresSnoc(ds: seq<Score>, d: Score)
    ensures SumScores(ds + [d]) == Plus(SumScores(ds), d)
    decreases |ds|
  {
    if |ds| == 0 {
      assert [] + [d] == [d];
      assert [d][1..] == [];
    } else {
      assert (ds + [d])[0] == ds[0];
      assert (ds + [d])[1..] == ds[1..] + [d];
      SumScoresSnoc(ds[1..], d);
    }
  }

  /** The view's deltas add up to the history rule's total. */
  lemma {:induction false} HistoryTotalIsSum(players: seq<Player>, rounds: seq<RoundResult>)
    ensures Total(HistoryRule, players, rounds) == SumScores(HistoryDeltas(players, rounds))
    decreases |rounds|
  {
    if |rounds| > 0 {
      var n := |rounds| - 1;
      var ds := HistoryDeltas(players, rounds);
      var front := HistoryDeltas(players, rounds[..n]);
      HistoryTotalIsSum(players, rounds[..n]);
      assert ds == front + [ds[n]];
      SumScoresSnoc(front, ds[n]);
    }
  }

  /** The `rounds.map` with its running accumulator: from position `index`
      and running totals `running` onward, each row carries its round, its
      number, its delta and the running totals after it. */
  function RowsFrom(rounds: seq<RoundResult>, deltas: seq<Score>, index: nat, running: Score): (rows: seq<HistoryRow>)
    requires |deltas| == |rounds|
    ensures |rows| == |rounds|
    ensures forall i :: 0 <= i < |rows| ==>
              && rows[i].round == rounds[i] && rows[i].roundNumber == index + i + 1
              && rows[i].roundTeamAScore == deltas[i].a && rows[i].roundTeamBScore == deltas[i].b
    decreases |rounds|
  {
    if |rounds| == 0 then []
    else
      var d := deltas[0];
      var next := Plus(running, d);
      var rest := RowsFrom(rounds[1..], deltas[1..], index + 1, next);
      var rows := [HistoryRow(rounds[0], index + 1, d.a, d.b, next.a, next.b)] + rest;
      assert forall i :: 0 < i < |rows| ==>
               rows[i] == rest[i - 1] && rounds[i] == rounds[1..][i - 1] && deltas[i] == deltas[1..][i - 1];
      rows
  }

  /** The rows the history view shows for a match state. */
  function RoundsWithTotals(s: GameState): seq<HistoryRow> {
    RowsFrom(s.rounds, HistoryDeltas(s.players, s.rounds), 0, Zero)
  }

  /** Row `i`'s running totals are the running start plus the deltas of
      every round up to and including round `i`. */
  lemma {:induction false} RunningTotalAt(rounds: seq<RoundResult>, deltas: seq<Score>, index: nat, running: Score, i: nat)
    requires |deltas| == |rounds| && i < |rounds|
    ensures RowsFrom(rounds, deltas, index, running)[i].runningTeamAScore == running.a + SumScores(deltas[..i + 1]).a
    ensures RowsFrom(rounds, deltas, index, running)[i].runningTeamBScore == running.b + SumScores(deltas[..i + 1]).b
    decreases i
  {
    var rows := RowsFrom(rounds, deltas, index, running);
    var d := deltas[0];
    var next := Plus(running, d);
    var rest := RowsFrom(rounds[1..], deltas[1..], index + 1, next);
    assert rows == [HistoryRow(rounds[0], index + 1, d.a, d.b, next.a, next.b)] + rest;
    var prefix := deltas[..i + 1];
    assert prefix[0] == d && prefix[1..] == deltas[1..][..i];
    assert SumScores(prefix) == Plus(d, SumScores(deltas[1..][..i]));
    if i > 0 {
      RunningTotalAt(rounds[1..], deltas[1..], index + 1, next, i - 1);
      assert rows[i] == rest[i - 1];
    } else {
      assert deltas[1..][..0] == [];
    }
  }

  /** The view shows one row per round, in log order, numbered from 1,
      with the view's delta for that round, and running totals equal to the
      history rule's total over the rounds up to and including it. */
  lemma HistoryRowsOfState(s: GameState)
    ensures |RoundsWithTotals(s)| == |s.rounds|
    ensures forall i :: 0 <= i < |s.rounds| ==>
              && RoundsWithTotals(s)[i].round == s.rounds[i]
              && RoundsWithTotals(s)[i].roundNumber == i + 1
              && RoundsWithTotals(s)[i].roundTeamAScore == HistoryRoundDelta(s.players, s.rounds[i]).a
              && RoundsWithTotals(s)[i].roundTeamBScore == HistoryRoundDelta(s.players, s.rounds[i]).b
              && RoundsWithTotals(s)[i].runningTeamAScore == Total(HistoryRule, s.players, s.rounds[..i + 1]).a
              && RoundsWithTotals(s)[i].runningTeamBScore == Total(HistoryRule, s.players, s.rounds[..i + 1]).b
  {
    var ds := HistoryDeltas(s.players, s.rounds);
    forall i | 0 <= i < |s.rounds|
      ensures RoundsWithTotals(s)[i].runningTeamAScore == Total(HistoryRule, s.players, s.rounds[..i + 1]).a
      ensures RoundsWithTotals(s)[i].runningTeamBScore == Total(HistoryRule, s.players, s.rounds[..i + 1]).b
    {
      RunningTotalAt(s.rounds, ds, 0, Zero, i);
      HistoryTotalIsSum(s.players, s.rounds[..i + 1]);
      assert HistoryDeltas(s.players, s.rounds[..i + 1]) == ds[..i + 1];
    }
  }

  /** A double-victory round none of whose calls counts is scored alike by
      the view and the engine. */
  lemma UncountedCallsAgree(players: seq<Player>, r: RoundResult)
    requires DoubleVictoryDecided(r) ==>
               forall i :: 0 <= i < |r.playerTichuCalls| ==> !Counts(players, r.playerTichuCalls[i])
    ensures RulesAgreeOn(players, r)
  {
    if DoubleVictoryDecided(r) {
      UncountedCallsAdjustNothing(players, r.playerTichuCalls);
    }
  }

  /** When the rules agree on every round of a consistent state, the last
      row of the view shows exactly the engine's totals. */
  lemma HistoryMatchesEngine(s: GameState)
    requires Consistent(s) && |s.rounds| > 0
    requires forall i :: 0 <= i < |s.rounds| ==> RulesAgreeOn(s.players, s.rounds[i])
    ensures RoundsWithTotals(s)[|s.rounds| - 1].runningTeamAScore == s.teamAScore
    ensures RoundsWithTotals(s)[|s.rounds| - 1].runningTeamBScore == s.teamBScore
  {
    HistoryRowsOfState(s);
    assert s.rounds[..|s.rounds|] == s.rounds;
    TotalsAgree(s.players, s.rounds);
  }

  /** The condition as the view's authors would meet it: when no decided
      double-victory round has a call that counts, the last row of the view
      shows exactly the engine's totals. */
  lemma HistoryMatchesWithoutDoubleVictoryCalls(s: GameState)
    requires Consistent(s) && |s.rounds| > 0
    requires forall i, j ::
               0 <= i < |s.rounds| && DoubleVictoryDecided(s.rounds[i]) && 0 <= j < |s.rounds[i].playerTichuCalls|
               ==> !Counts(s.players, s.rounds[i].playerTichuCalls[j])
    ensures RoundsWithTotals(s)[|s.rounds| - 1].runningTeamAScore == s.teamAScore
    ensures RoundsWithTotals(s)[|s.rounds| - 1].runningTeamBScore == s.teamBScore
  {
    forall i | 0 <= i < |s.rounds|
      ensures RulesAgreeOn(s.players, s.rounds[i])
    {
      UncountedCallsAgree(s.players, s.rounds[i]);
    }
    HistoryMatchesEngine(s);
  }

  /** With a single round in the log, the view's only row shows that
      round's delta as the running totals. */
  lemma SingleRoundRow(s: GameState)
    requires |s.rounds| == 1
    ensures RoundsWithTotals(s)[0].runningTeamAScore == HistoryRoundDelta(s.players, s.rounds[0]).a
    ensures RoundsWithTotals(s)[0].runningTeamBScore == HistoryRoundDelta(s.players, s.rounds[0]).b
  {
    var ds := HistoryDeltas(s.players, s.rounds);
    RunningTotalAt(s.rounds, ds, 0, Zero, 0);
    assert ds[..1] == ds && ds[1..] == [];
  }

  /** Recording, on a fresh match, a double victory in which one player's
      Tichu succeeded: the view's only row shows the call's value more, in
      total, than the engine's totals. */
  lemma HistoryDivergesFromEngine(s: GameState, r: RoundResult)
    requires s.gameStatus == InProgress && s.rounds == [] && Consistent(s)
    requires DoubleVictoryDecided(r) && |r.playerTichuCalls| == 1
    requires Counts(s.players, r.playerTichuCalls[0]) && r.playerTichuCalls[0].success == Some(true)
    ensures var t := RecordRound(s, r);
            var last := RoundsWithTotals(t)[0];
            last.runningTeamAScore + last.runningTeamBScore
            == t.teamAScore + t.teamBScore + CallValue(r.playerTichuCalls[0].call)
  {
    var t := RecordRound(s, r);
    var e := EngineRoundDelta(s.players, r);
    assert t.teamAScore == e.a && t.teamBScore == e.b;
    assert t.rounds == [r] && t.players == s.players;
    SingleRoundRow(t);
    DoubleVictoryWithTichuDiverges(s.players, r);
  }
}
