/** The per-round scoring rules. The engine (useTichuGame.ts) and the
    history view (RoundHistory.tsx) share the Tichu-call loop but order it
    differently against the double-victory override, so both rules live
    here, side by side, together with the fold that sums either rule over a
    round log. */
module Scoring {
  import opened Outcomes
  import opened TichuTypes

  /** Points at stake for a call: 200 for a Grand Tichu, 100 otherwise. */
  function CallValue(call: TichuCall): int {
    if call == GrandTichu then 200 else 100
  }

  /** A call takes part in scoring when it is an actual call, it has been
      resolved, and its index names an existing player. */
  predicate Counts(players: seq<Player>, c: PlayerTichuCall) {
    c.call != NoCall && c.success.Some? && 0 <= c.playerIndex < |players|
  }

  /** What one call adds to a round: plus its value on success, minus it on
      failure, always to the caller's team alone. */
  function CallPoints(players: seq<Player>, c: PlayerTichuCall): (s: Score)
    ensures !Counts(players, c) ==> s == Zero
    ensures Counts(players, c) && players[c.playerIndex].team == TeamA ==> s.b == 0
    ensures Counts(players, c) && players[c.playerIndex].team == TeamB ==> s.a == 0
    ensures Counts(players, c) ==>
              s.a + s.b == (if c.success.value then CallValue(c.call) else -CallValue(c.call))
  {
    if !Counts(players, c) then Zero
    else
      var points := if c.success.value then CallValue(c.call) else -CallValue(c.call);
      Credit(players[c.playerIndex].team, points)
  }

  /** The `for (const playerTichu of ...)` loop shared by the engine and the
      history view: adds each call's points to the running pair `acc`, front
      to back. */
  function ApplyCalls(players: seq<Player>, calls: seq<PlayerTichuCall>, acc: Score): Score
    decreases |calls|
  {
    if |calls| == 0 then acc
    else ApplyCalls(players, calls[1..], Plus(acc, CallPoints(players, calls[0])))
  }

  /** Reference definition: the sum of all calls' points. */
  function Adjustments(players: seq<Player>, calls: seq<PlayerTichuCall>): Score
    decreases |calls|
  {
    if |calls| == 0 then Zero
    else Plus(CallPoints(players, calls[0]), Adjustments(players, calls[1..]))
  }

  /** The loop adds exactly the sum of the calls' points to its start value. */
  lemma {:induction false} ApplyCallsAddsAdjustments(players: seq<Player>, calls: seq<PlayerTichuCall>, acc: Score)
    ensures ApplyCalls(players, calls, acc) == Plus(acc, Adjustments(players, calls))
    decreases |calls|
  {
    if |calls| > 0 {
      ApplyCallsAddsAdjustments(players, calls[1..], Plus(acc, CallPoints(players, calls[0])));
    }
  }

  lemma {:induction false} AdjustmentsAppend(players: seq<Player>, xs: seq<PlayerTichuCall>, ys: seq<PlayerTichuCall>)
    ensures Adjustments(players, xs + ys) == Plus(Adjustments(players, xs), Adjustments(players, ys))
    decreases |xs|
  {
    if |xs| == 0 {
      assert xs + ys == ys;
    } else {
      assert (xs + ys)[0] == xs[0];
      assert (xs + ys)[1..] == xs[1..] + ys;
      AdjustmentsAppend(players, xs[1..], ys);
    }
  }

  lemma SingleCallAdjustment(players: seq<Player>, c: PlayerTichuCall)
    ensures Adjustments(players, [c]) == CallPoints(players, c)
  {
    assert [c][1..] == [];
    assert Adjustments(players, [c]) == Plus(CallPoints(players, c), Adjustments(players, []));
    var p := CallPoints(players, c);
    assert Plus(p, Zero) == p;
  }

  lemma PlusShuffle(x: Score, y: Score, z: Score)
    ensures Plus(Plus(x, y), z) == Plus(y, Plus(x, z))
  {
  }

  /** Putting one call into the array adds exactly its points. */
  lemma AdjustmentsInsert(players: seq<Player>, front: seq<PlayerTichuCall>, x: PlayerTichuCall, back: seq<PlayerTichuCall>)
    ensures Adjustments(players, (front + [x]) + back) == Plus(CallPoints(players, x), Adjustments(players, front + back))
  {
    var fx := front + [x];
    AdjustmentsAppend(players, fx, back);
    var fa, xa, ba := Adjustments(players, front), CallPoints(players, x), Adjustments(players, back);
    assert Adjustments(players, fx + back) == Plus(Adjustments(players, fx), ba);
    AdjustmentsAppend(players, front, [x]);
    SingleCallAdjustment(players, x);
    assert Adjustments(players, fx) == Plus(fa, xa);
    AdjustmentsAppend(players, front, back);
    assert Adjustments(players, front + back) == Plus(fa, ba);
    PlusShuffle(fa, xa, ba);
  }

  /** Removing the entry at `k` removes one occurrence of it. */
  lemma MultisetWithout(ys: seq<PlayerTichuCall>, k: int)
    requires 0 <= k < |ys|
    ensures multiset(ys) == multiset(ys[..k] + ys[k + 1..]) + multiset{ys[k]}
  {
    assert ys == ys[..k] + [ys[k]] + ys[k + 1..];
  }

  /** Taking the same call out of two arrays with the same calls leaves
      arrays with the same calls. */
  lemma RemoveMatchingCall(xs: seq<PlayerTichuCall>, ys: seq<PlayerTichuCall>, k: int)
    requires multiset(xs) == multiset(ys) && |xs| > 0 && 0 <= k < |ys| && ys[k] == xs[0]
    ensures multiset(xs[1..]) == multiset(ys[..k] + ys[k + 1..])
  {
    MultisetWithout(ys, k);
    MultisetWithout(xs, 0);
    assert xs[..0] + xs[1..] == xs[1..];
    MultisetCancel(multiset(xs[1..]), multiset(ys[..k] + ys[k + 1..]), multiset{xs[0]});
  }

  lemma MultisetCancel(a: multiset<PlayerTichuCall>, b: multiset<PlayerTichuCall>, x: multiset<PlayerTichuCall>)
    requires a + x == b + x
    ensures a == b
  {
    assert a == (a + x) - x;
  }

  /** The order of the calls does not matter: any permutation of the calls
      array yields the same adjustments. */
  lemma {:induction false} AdjustmentsOrderFree(players: seq<Player>, xs: seq<PlayerTichuCall>, ys: seq<PlayerTichuCall>)
    requires multiset(xs) == multiset(ys)
    ensures Adjustments(players, xs) == Adjustments(players, ys)
    decreases |xs|
  {
    if |xs| == 0 {
      assert |multiset(ys)| == 0;
    } else {
      var x := xs[0];
      assert x in multiset(xs);
      assert x in ys;
      var k :| 0 <= k < |ys| && ys[k] == x;
      var rest := ys[..k] + ys[k + 1..];
      RemoveMatchingCall(xs, ys, k);
      AdjustmentsOrderFree(players, xs[1..], rest);
      assert ys == (ys[..k] + [x]) + ys[k + 1..];
      AdjustmentsInsert(players, ys[..k], x, ys[k + 1..]);
      assert Adjustments(players, xs) == Plus(CallPoints(players, x), Adjustments(players, xs[1..]));
    }
  }

  /** When no call counts, the calls adjust nothing. */
  lemma {:induction false} UncountedCallsAdjustNothing(players: seq<Player>, calls: seq<PlayerTichuCall>)
    requires forall i :: 0 <= i < |calls| ==> !Counts(players, calls[i])
    ensures Adjustments(players, calls) == Zero
    decreases |calls|
  {
    if |calls| > 0 {
      UncountedCallsAdjustNothing(players, calls[1..]);
    }
  }

  /** A double victory is applied only when a team was also chosen. */
  predicate DoubleVictoryDecided(r: RoundResult) {
    r.doubleVictory && r.doubleVictoryTeam.Some?
  }

  /** The flat double-victory result: 200 for the winners, 0 for the others. */
  function DoubleVictoryBase(team: Team): Score {
    Credit(team, 200)
  }

  /** A double victory is worth 200 to the winners and nothing to the
      others. */
  lemma DoubleVictoryBaseMeaning(team: Team)
    ensures team == TeamA ==> DoubleVictoryBase(team) == Score(200, 0)
    ensures team == TeamB ==> DoubleVictoryBase(team) == Score(0, 200)
  {
  }

  function CardPoints(r: RoundResult): Score {
    Score(r.teamAScore, r.teamBScore)
  }

  /** The engine's round delta (recordRound and the undo refold): card
      points plus the calls, then a decided double victory replaces the
      whole pair, calls included. */
  function EngineRoundDelta(players: seq<Player>, r: RoundResult): (d: Score)
    ensures DoubleVictoryDecided(r) ==> d == DoubleVictoryBase(r.doubleVictoryTeam.value)
    ensures !DoubleVictoryDecided(r) ==> d == Plus(CardPoints(r), Adjustments(players, r.playerTichuCalls))
  {
    ApplyCallsAddsAdjustments(players, r.playerTichuCalls, CardPoints(r));
    var withCalls := ApplyCalls(players, r.playerTichuCalls, CardPoints(r));
    if r.doubleVictory && r.doubleVictoryTeam.Some? then DoubleVictoryBase(r.doubleVictoryTeam.value)
    else withCalls
  }

  /** The history view's starting pair: 200/0 for a decided double
      victory, the card points otherwise. */
  function HistoryBase(r: RoundResult): (s: Score)
    ensures DoubleVictoryDecided(r) ==> s == DoubleVictoryBase(r.doubleVictoryTeam.value)
    ensures !DoubleVictoryDecided(r) ==> s == CardPoints(r)
  {
    if r.doubleVictory && r.doubleVictoryTeam.Some? then DoubleVictoryBase(r.doubleVictoryTeam.value)
    else CardPoints(r)
  }

  /** The history view's round delta: a decided double victory sets the
      base to 200/0, and the calls are then added on top of it. */
  function HistoryRoundDelta(players: seq<Player>, r: RoundResult): (d: Score)
    ensures d == Plus(HistoryBase(r), Adjustments(players, r.playerTichuCalls))
  {
    ApplyCallsAddsAdjustments(players, r.playerTichuCalls, HistoryBase(r));
    ApplyCalls(players, r.playerTichuCalls, HistoryBase(r))
  }

  /** The view's starting pair is what the engine records for the same
      round with its calls left out. */
  lemma HistoryBaseIsCallFreeEngineDelta(players: seq<Player>, r: RoundResult)
    ensures HistoryBase(r) == EngineRoundDelta(players, r.(playerTichuCalls := []))
  {
    assert Adjustments(players, []) == Zero;
  }

  /** The two rules agree on a round unless it is a decided double victory
      whose calls adjust something. */
  predicate RulesAgreeOn(players: seq<Player>, r: RoundResult) {
    !DoubleVictoryDecided(r) || Adjustments(players, r.playerTichuCalls) == Zero
  }

  /** How the history delta differs from the engine delta, round by round,
      in both directions of the agreement condition. */
  lemma HistoryVersusEngine(players: seq<Player>, r: RoundResult)
    ensures !DoubleVictoryDecided(r) ==> HistoryRoundDelta(players, r) == EngineRoundDelta(players, r)
    ensures DoubleVictoryDecided(r) ==>
              HistoryRoundDelta(players, r) == Plus(EngineRoundDelta(players, r), Adjustments(players, r.playerTichuCalls))
    ensures HistoryRoundDelta(players, r) == EngineRoundDelta(players, r) <==> RulesAgreeOn(players, r)
  {
    var e := EngineRoundDelta(players, r);
    var h := HistoryRoundDelta(players, r);
    var adj := Adjustments(players, r.playerTichuCalls);
    if DoubleVictoryDecided(r) {
      assert h == Plus(e, adj);
      if adj == Zero {
        assert h == e;
      } else {
        assert adj.a != 0 || adj.b != 0;
        assert h.a != e.a || h.b != e.b;
      }
    } else {
      assert h == e;
    }
  }

  /** Which of the two per-round rules a fold uses. */
  datatype Rule = EngineRule | HistoryRule

  function RoundDelta(rule: Rule, players: seq<Player>, r: RoundResult): Score {
    match rule
    case EngineRule => EngineRoundDelta(players, r)
    case HistoryRule => HistoryRoundDelta(players, r)
  }

  /** The sum of a rule's round deltas over a round log, oldest first. */
  function Total(rule: Rule, players: seq<Player>, rounds: seq<RoundResult>): Score
    decreases |rounds|
  {
    if |rounds| == 0 then Zero
    else Plus(Total(rule, players, rounds[..|rounds| - 1]), RoundDelta(rule, players, rounds[|rounds| - 1]))
  }

  /** Totals split over concatenated logs. */
  lemma {:induction false} TotalAppend(rule: Rule, players: seq<Player>, xs: seq<RoundResult>, ys: seq<RoundResult>)
    ensures Total(rule, players, xs + ys) == Plus(Total(rule, players, xs), Total(rule, players, ys))
    decreases |ys|
  {
    if |ys| == 0 {
      assert xs + ys == xs;
    } else {
      var zs := xs + ys;
      assert zs[..|zs| - 1] == xs + ys[..|ys| - 1];
      assert zs[|zs| - 1] == ys[|ys| - 1];
      TotalAppend(rule, players, xs, ys[..|ys| - 1]);
    }
  }

  /** A log's total is its first round's delta plus the total of the rest. */
  lemma TotalCons(rule: Rule, players: seq<Player>, rounds: seq<RoundResult>)
    requires |rounds| > 0
    ensures Total(rule, players, rounds) == Plus(RoundDelta(rule, players, rounds[0]), Total(rule, players, rounds[1..]))
  {
    var x := [rounds[0]];
    assert rounds == x + rounds[1..];
    TotalAppend(rule, players, x, rounds[1..]);
    assert x[..0] == [];
    var first := Total(rule, players, x);
    assert first == Plus(Zero, RoundDelta(rule, players, rounds[0]));
  }

  /** If the rules agree on every round of a log, their totals agree. */
  lemma {:induction false} TotalsAgree(players: seq<Player>, rounds: seq<RoundResult>)
    requires forall i :: 0 <= i < |rounds| ==> RulesAgreeOn(players, rounds[i])
    ensures Total(HistoryRule, players, rounds) == Total(EngineRule, players, rounds)
    decreases |rounds|
  {
    if |rounds| > 0 {
      var n := |rounds| - 1;
      HistoryVersusEngine(players, rounds[n]);
      TotalsAgree(players, rounds[..n]);
    }
  }

  /** Worked example: a double victory ignores the card points entered. */
  lemma DoubleVictoryExample(players: seq<Player>, r: RoundResult)
    requires r == RoundResult(60, 40, [], true, Some(TeamB))
    ensures EngineRoundDelta(players, r) == Score(0, 200)
  {
  }

  /** Worked example: a Team A Grand Tichu moves its team's card points by
      200 either way and leaves the other team's alone. */
  lemma GrandTichuExample(players: seq<Player>, r: RoundResult, won: bool)
    requires |players| == 4 && players[0].team == TeamA
    requires r == RoundResult(30, 70, [PlayerTichuCall(0, GrandTichu, Some(won))], false, None)
    ensures won ==> EngineRoundDelta(players, r) == Score(230, 70)
    ensures !won ==> EngineRoundDelta(players, r) == Score(-170, 70)
  {
    var c := r.playerTichuCalls[0];
    assert CallPoints(players, c) == Score(if won then 200 else -200, 0);
    SingleCallAdjustment(players, c);
  }

  /** A decided double victory with a single successful call: the history
      shows the call's value more, in total, than the engine added. */
  lemma DoubleVictoryWithTichuDiverges(players: seq<Player>, r: RoundResult)
    requires DoubleVictoryDecided(r) && |r.playerTichuCalls| == 1
    requires Counts(players, r.playerTichuCalls[0]) && r.playerTichuCalls[0].success == Some(true)
    ensures HistoryRoundDelta(players, r).a + HistoryRoundDelta(players, r).b
            == EngineRoundDelta(players, r).a + EngineRoundDelta(players, r).b + CallValue(r.playerTichuCalls[0].call)
  {
    var c := r.playerTichuCalls[0];
    assert CallPoints(players, c).a + CallPoints(players, c).b == CallValue(c.call);
    assert r.playerTichuCalls == [c];
    SingleCallAdjustment(players, c);
    HistoryVersusEngine(players, r);
  }
}
