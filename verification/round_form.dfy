/** The round entry form (RoundForm.tsx): per-player Tichu calls and their
    outcomes held in two insertion-ordered maps, the two card-point fields
    with their auto-complement, the double-victory controls, and the
    submit handler that validates the form and hands a round to the
    engine.

    A card-point field holds text; here it is `None` while empty and
    `Some(n)` once it holds text, `n` being what `parseInt(text) || 0`
    makes of it. Both the truthiness test and the number the handlers read
    depend on the text only through that. */
module RoundForm {
  import opened Outcomes
  import opened TichuTypes
  import opened OrderedMap
  import opened Scoring
  import opened Game

  datatype FormState = FormState(
    teamACardPoints: Option<int>,
    teamBCardPoints: Option<int>,
    playerTichuCalls: seq<Entry<TichuCall>>,
    playerTichuSuccess: seq<Entry<Option<bool>>>,
    doubleVictory: bool,
    doubleVictoryTeam: Option<Team>)

  /** The form as first shown and as reset after a submission. */
  const InitialForm := FormState(None, None, [], [], false, None)

  /** The number a card-point field yields: `parseInt(text) || 0`. */
  function CardValue(field: Option<int>): int {
    ValueOr(field, 0)
  }

  /** The shape the call handlers keep: no map holds a key twice, no
      recorded call is 'None', and every called player has an outcome
      entry (possibly still unresolved). */
  predicate CallsWellFormed(f: FormState) {
    && DistinctKeys(f.playerTichuCalls)
    && DistinctKeys(f.playerTichuSuccess)
    && forall i :: 0 <= i < |f.playerTichuCalls| ==>
         && f.playerTichuCalls[i].value != NoCall
         && HasKey(f.playerTichuSuccess, f.playerTichuCalls[i].key)
  }

  /** `handlePlayerTichuCall`: choosing 'None' removes the player from both
      maps; choosing a call records it and resets its outcome to
      unresolved. */
  function ChooseCall(f: FormState, playerIndex: int, call: TichuCall): (g: FormState)
    ensures g == f.(playerTichuCalls := g.playerTichuCalls, playerTichuSuccess := g.playerTichuSuccess)
    ensures call == NoCall ==> !HasKey(g.playerTichuCalls, playerIndex) && !HasKey(g.playerTichuSuccess, playerIndex)
    ensures call != NoCall ==>
              Get(g.playerTichuCalls, playerIndex) == Some(call) && Get(g.playerTichuSuccess, playerIndex) == Some(None)
    ensures forall k :: k != playerIndex ==>
              Get(g.playerTichuCalls, k) == Get(f.playerTichuCalls, k)
              && Get(g.playerTichuSuccess, k) == Get(f.playerTichuSuccess, k)
  {
    if call == NoCall then
      f.(playerTichuCalls := Delete(f.playerTichuCalls, playerIndex),
         playerTichuSuccess := Delete(f.playerTichuSuccess, playerIndex))
    else
      f.(playerTichuCalls := Set(f.playerTichuCalls, playerIndex, call),
         playerTichuSuccess := Set(f.playerTichuSuccess, playerIndex, None))
  }

  /** Choosing or clearing a call keeps the call maps well formed. */
  lemma ChooseCallKeepsCallsWellFormed(f: FormState, playerIndex: int, call: TichuCall)
    requires CallsWellFormed(f)
    ensures CallsWellFormed(ChooseCall(f, playerIndex, call))
  {
    var g := ChooseCall(f, playerIndex, call);
    if call == NoCall {
      forall i | 0 <= i < |g.playerTichuCalls|
        ensures g.playerTichuCalls[i].value != NoCall && HasKey(g.playerTichuSuccess, g.playerTichuCalls[i].key)
      {
        var e := g.playerTichuCalls[i];
        var j :| 0 <= j < |f.playerTichuCalls| && f.playerTichuCalls[j] == e;
        assert HasKey(f.playerTichuSuccess, e.key);
        assert Get(g.playerTichuSuccess, e.key) == Get(f.playerTichuSuccess, e.key);
      }
    } else {
      SetKeepsDistinct(f.playerTichuCalls, playerIndex, call);
      SetKeepsDistinct(f.playerTichuSuccess, playerIndex, None);
      forall i | 0 <= i < |g.playerTichuCalls|
        ensures g.playerTichuCalls[i].value != NoCall && HasKey(g.playerTichuSuccess, g.playerTichuCalls[i].key)
      {
        var e := g.playerTichuCalls[i];
        if e.key != playerIndex {
          var j :| 0 <= j < |f.playerTichuCalls| && f.playerTichuCalls[j] == e;
          assert HasKey(f.playerTichuSuccess, e.key);
          assert Get(g.playerTichuSuccess, e.key) == Get(f.playerTichuSuccess, e.key);
        } else if e != Entry(playerIndex, call) {
          var j :| 0 <= j < |f.playerTichuCalls| && f.playerTichuCalls[j] == e;
        }
      }
    }
  }

  /** `handlePlayerTichuSuccess`: records whether the player's call made it. */
  function ResolveCall(f: FormState, playerIndex: int, success: bool): (g: FormState)
    ensures g == f.(playerTichuSuccess := g.playerTichuSuccess)
    ensures Get(g.playerTichuSuccess, playerIndex) == Some(Some(success))
    ensures forall k :: k != playerIndex ==> Get(g.playerTichuSuccess, k) == Get(f.playerTichuSuccess, k)
    ensures CallsWellFormed(f) ==> CallsWellFormed(g)
  {
    var g := f.(playerTichuSuccess := Set(f.playerTichuSuccess, playerIndex, Some(success)));
    assert CallsWellFormed(f) ==> CallsWellFormed(g) by {
      if CallsWellFormed(f) {
        SetKeepsDistinct(f.playerTichuSuccess, playerIndex, Some(success));
        forall i | 0 <= i < |g.playerTichuCalls|
          ensures HasKey(g.playerTichuSuccess, g.playerTichuCalls[i].key)
        {
          var k := g.playerTichuCalls[i].key;
          assert HasKey(f.playerTichuSuccess, k);
          if k != playerIndex {
            assert Get(g.playerTichuSuccess, k) == Get(f.playerTichuSuccess, k);
          }
        }
      }
    }
    g
  }

  /** `handleTeamACardPointsChange`: outside a double victory, Team B's
      field is filled with the complement to 100, or cleared when Team A's
      value exceeds 100. */
  function ChangeTeamACardPoints(f: FormState, value: Option<int>): (g: FormState)
    ensures g == f.(teamACardPoints := value, teamBCardPoints := g.teamBCardPoints)
    ensures f.doubleVictory ==> g.teamBCardPoints == f.teamBCardPoints
    ensures !f.doubleVictory && CardValue(value) <= 100 ==>
              g.teamBCardPoints.Some? && CardValue(g.teamACardPoints) + CardValue(g.teamBCardPoints) == 100
    ensures !f.doubleVictory && CardValue(value) > 100 ==> g.teamBCardPoints == None
  {
    var g := f.(teamACardPoints := value);
    if f.doubleVictory then g
    else
      var a := CardValue(value);
      if a <= 100 then g.(teamBCardPoints := Some(100 - a))
      else g.(teamBCardPoints := None)
  }

  /** `handleTeamBCardPointsChange`: the typed value is kept unless Team A's
      field holds text, no double victory is set and Team A's value is at
      most 100; then the complement to 100 replaces it. */
  function ChangeTeamBCardPoints(f: FormState, value: Option<int>): (g: FormState)
    ensures g == f.(teamBCardPoints := g.teamBCardPoints)
    ensures f.teamACardPoints.Some? && !f.doubleVictory && CardValue(f.teamACardPoints) <= 100 ==>
              g.teamBCardPoints.Some? && CardValue(g.teamACardPoints) + CardValue(g.teamBCardPoints) == 100
    ensures !(f.teamACardPoints.Some? && !f.doubleVictory && CardValue(f.teamACardPoints) <= 100) ==>
              g.teamBCardPoints == value
  {
    var g := f.(teamBCardPoints := value);
    if f.teamACardPoints.Some? && !f.doubleVictory then
      var a := CardValue(f.teamACardPoints);
      if a <= 100 then g.(teamBCardPoints := Some(100 - a)) else g
    else g
  }

  /** The double-victory checkbox: checking it clears both card-point
      fields, unchecking it clears the chosen team. */
  function ToggleDoubleVictory(f: FormState, checked: bool): (g: FormState)
    ensures g.doubleVictory == checked
    ensures g.playerTichuCalls == f.playerTichuCalls && g.playerTichuSuccess == f.playerTichuSuccess
    ensures checked ==>
              g.teamACardPoints == None && g.teamBCardPoints == None && g.doubleVictoryTeam == f.doubleVictoryTeam
    ensures !checked ==>
              g.doubleVictoryTeam == None
              && g.teamACardPoints == f.teamACardPoints && g.teamBCardPoints == f.teamBCardPoints
  {
    var g := f.(doubleVictory := checked);
    if checked then g.(teamACardPoints := None, teamBCardPoints := None)
    else g.(doubleVictoryTeam := None)
  }

  /** The double-victory team radio buttons: the picked team is held and
      nothing else on the form moves. */
  function ChooseDoubleVictoryTeam(f: FormState, team: Team): (g: FormState)
    ensures g.doubleVictoryTeam == Some(team)
    ensures g == f.(doubleVictoryTeam := g.doubleVictoryTeam)
  {
    f.(doubleVictoryTeam := Some(team))
  }

  datatype FormError =
    | CardPointsMustSumTo100(total: int)
    | DoubleVictoryTeamMissing
    | UnresolvedCall(playerIndex: int)

  /** What submitting the form leads to: an alert, or a round handed to the
      engine together with the reset form. */
  datatype Submission = Rejected(error: FormError) | Accepted(round: RoundResult, next: FormState)

  /** Every recorded call has an outcome that is not the explicit
      unresolved marker. A missing outcome entry passes, as in the form. */
  predicate AllResolved(calls: seq<Entry<TichuCall>>, success: seq<Entry<Option<bool>>>) {
    forall i :: 0 <= i < |calls| && calls[i].value != NoCall ==> Get(success, calls[i].key) != Some(None)
  }

  /** A call list is resolved exactly when its first call is and the
      rest are. */
  lemma AllResolvedCons(calls: seq<Entry<TichuCall>>, success: seq<Entry<Option<bool>>>)
    requires |calls| > 0
    ensures AllResolved(calls, success) <==>
              && (calls[0].value != NoCall ==> Get(success, calls[0].key) != Some(None))
              && AllResolved(calls[1..], success)
  {
    if AllResolved(calls[1..], success) && (calls[0].value != NoCall ==> Get(success, calls[0].key) != Some(None)) {
      forall i | 0 <= i < |calls| && calls[i].value != NoCall
        ensures Get(success, calls[i].key) != Some(None)
      {
        if i > 0 {
          assert calls[i] == calls[1..][i - 1];
        }
      }
    }
    if AllResolved(calls, success) {
      forall i | 0 <= i < |calls[1..]| && calls[1..][i].value != NoCall
        ensures Get(success, calls[1..][i].key) != Some(None)
      {
        assert calls[1..][i] == calls[i + 1];
      }
    }
  }

  /** The first call, in map order, whose outcome is still unresolved:
      every call before it is resolved. */
  function FirstUnresolved(calls: seq<Entry<TichuCall>>, success: seq<Entry<Option<bool>>>): (r: Option<int>)
    ensures r.None? <==> AllResolved(calls, success)
    ensures r.Some? ==>
              exists i :: 0 <= i < |calls| && calls[i].key == r.value && calls[i].value != NoCall
                && Get(success, calls[i].key) == Some(None) && AllResolved(calls[..i], success)
    decreases |calls|
  {
    if |calls| == 0 then None
    else if calls[0].value != NoCall && Get(success, calls[0].key) == Some(None) then
      assert AllResolved(calls[..0], success);
      Some(calls[0].key)
    else
      var r := FirstUnresolved(calls[1..], success);
      AllResolvedCons(calls, success);
      assert r.Some? ==>
               exists i :: 0 <= i < |calls| && calls[i].key == r.value && calls[i].value != NoCall
                 && Get(success, calls[i].key) == Some(None) && AllResolved(calls[..i], success) by {
        if r.Some? {
          var i :| 0 <= i < |calls[1..]| && calls[1..][i].key == r.value && calls[1..][i].value != NoCall
                     && Get(success, calls[1..][i].key) == Some(None) && AllResolved(calls[1..][..i], success);
          assert calls[i + 1] == calls[1..][i];
          var prefix := calls[..i + 1];
          assert prefix[0] == calls[0] && prefix[1..] == calls[1..][..i];
          AllResolvedCons(prefix, success);
        }
      }
      r
  }

  /** `get(playerIndex) ?? null`: an absent entry and an unresolved one both
      become an absent outcome. */
  function OutcomeOf(success: seq<Entry<Option<bool>>>, playerIndex: int): (o: Option<bool>)
    ensures o.Some? <==> Get(success, playerIndex).Some? && Get(success, playerIndex).value.Some?
    ensures o.Some? ==> Get(success, playerIndex) == Some(o)
  {
    match Get(success, playerIndex)
    case None => None
    case Some(x) => x
  }

  /** The submitted call list: one entry per recorded call other than
      'None', in map order, carrying the player's outcome. */
  function BuildCalls(calls: seq<Entry<TichuCall>>, success: seq<Entry<Option<bool>>>): (r: seq<PlayerTichuCall>)
    ensures |r| <= |calls|
    ensures forall j :: 0 <= j < |r| ==>
              && r[j].call != NoCall
              && HasKey(calls, r[j].playerIndex)
              && r[j].success == OutcomeOf(success, r[j].playerIndex)
    decreases |calls|
  {
    if |calls| == 0 then []
    else
      var rest := BuildCalls(calls[1..], success);
      HasKeyOfTail(calls);
      if calls[0].value == NoCall then rest
      else
        var r := [PlayerTichuCall(calls[0].key, calls[0].value, OutcomeOf(success, calls[0].key))] + rest;
        assert forall j :: 0 < j < |r| ==> r[j] == rest[j - 1];
        r
  }

  /** Every recorded call other than 'None' reaches the submitted list. */
  lemma {:induction false} BuildCallsCovers(calls: seq<Entry<TichuCall>>, success: seq<Entry<Option<bool>>>, i: int)
    requires 0 <= i < |calls| && calls[i].value != NoCall
    ensures exists j :: 0 <= j < |BuildCalls(calls, success)|
              && BuildCalls(calls, success)[j].playerIndex == calls[i].key
              && BuildCalls(calls, success)[j].call == calls[i].value
    decreases i
  {
    var rest := BuildCalls(calls[1..], success);
    var head := if calls[0].value != NoCall
                then [PlayerTichuCall(calls[0].key, calls[0].value, OutcomeOf(success, calls[0].key))]
                else [];
    var r := BuildCalls(calls, success);
    assert r == head + rest by {
      if calls[0].value == NoCall {
        assert head + rest == rest;
      }
    }
    if i == 0 {
      assert r[0].playerIndex == calls[0].key && r[0].call == calls[0].value;
    } else {
      assert calls[i] == calls[1..][i - 1];
      BuildCallsCovers(calls[1..], success, i - 1);
      var j :| 0 <= j < |rest| && rest[j].playerIndex == calls[i].key && rest[j].call == calls[i].value;
      assert r[|head| + j] == rest[j];
    }
  }

  /** The submitted list never names a player twice when the call map holds
      each player once. */
  lemma {:induction false} BuildCallsDistinct(calls: seq<Entry<TichuCall>>, success: seq<Entry<Option<bool>>>)
    requires DistinctKeys(calls)
    ensures forall j, j' :: 0 <= j < j' < |BuildCalls(calls, success)| ==>
              BuildCalls(calls, success)[j].playerIndex != BuildCalls(calls, success)[j'].playerIndex
    decreases |calls|
  {
    if |calls| > 0 {
      var rest := BuildCalls(calls[1..], success);
      assert DistinctKeys(calls[1..]) by {
        forall i, i' | 0 <= i < i' < |calls[1..]|
          ensures calls[1..][i].key != calls[1..][i'].key
        {
          assert calls[1..][i] == calls[i + 1] && calls[1..][i'] == calls[i' + 1];
        }
      }
      BuildCallsDistinct(calls[1..], success);
      forall j | 0 <= j < |rest|
        ensures rest[j].playerIndex != calls[0].key
      {
        var k := rest[j].playerIndex;
        assert HasKey(calls[1..], k);
        var i :| 0 <= i < |calls[1..]| && calls[1..][i].key == k;
        assert calls[i + 1].key == k;
      }
    }
  }

  /** `handleSubmit`: the card points must sum to 100 outside a double
      victory, a double victory needs its team, and every call needs its
      outcome; then the round is handed over and the form resets. */
  function Submit(f: FormState): (s: Submission)
    ensures !f.doubleVictory && CardValue(f.teamACardPoints) + CardValue(f.teamBCardPoints) != 100 ==>
              s == Rejected(CardPointsMustSumTo100(CardValue(f.teamACardPoints) + CardValue(f.teamBCardPoints)))
    ensures f.doubleVictory && f.doubleVictoryTeam.None? ==> s == Rejected(DoubleVictoryTeamMissing)
    ensures s.Accepted? <==>
              && (f.doubleVictory ==> f.doubleVictoryTeam.Some?)
              && (!f.doubleVictory ==> CardValue(f.teamACardPoints) + CardValue(f.teamBCardPoints) == 100)
              && AllResolved(f.playerTichuCalls, f.playerTichuSuccess)
    ensures (f.doubleVictory ==> f.doubleVictoryTeam.Some?)
            && (!f.doubleVictory ==> CardValue(f.teamACardPoints) + CardValue(f.teamBCardPoints) == 100)
            && !AllResolved(f.playerTichuCalls, f.playerTichuSuccess) ==>
              s.Rejected? && s.error.UnresolvedCall?
    ensures s.Rejected? && s.error.UnresolvedCall? ==>
              exists i :: 0 <= i < |f.playerTichuCalls|
                && f.playerTichuCalls[i].key == s.error.playerIndex && f.playerTichuCalls[i].value != NoCall
                && Get(f.playerTichuSuccess, s.error.playerIndex) == Some(None)
                && AllResolved(f.playerTichuCalls[..i], f.playerTichuSuccess)
    ensures s.Accepted? ==>
              && s.next == InitialForm
              && s.round.teamAScore == CardValue(f.teamACardPoints)
              && s.round.teamBScore == CardValue(f.teamBCardPoints)
              && s.round.playerTichuCalls == BuildCalls(f.playerTichuCalls, f.playerTichuSuccess)
              && s.round.doubleVictory == f.doubleVictory
              && (DoubleVictoryDecided(s.round) <==> f.doubleVictory)
              && s.round.doubleVictoryTeam == (if f.doubleVictory then f.doubleVictoryTeam else None)
  {
    var a := CardValue(f.teamACardPoints);
    var b := CardValue(f.teamBCardPoints);
    if !f.doubleVictory && a + b != 100 then Rejected(CardPointsMustSumTo100(a + b))
    else if f.doubleVictory && f.doubleVictoryTeam.None? then Rejected(DoubleVictoryTeamMissing)
    else
      match FirstUnresolved(f.playerTichuCalls, f.playerTichuSuccess)
      case Some(k) => Rejected(UnresolvedCall(k))
      case None =>
        var round := RoundResult(
          a, b, BuildCalls(f.playerTichuCalls, f.playerTichuSuccess),
          f.doubleVictory, if f.doubleVictory then f.doubleVictoryTeam else None);
        Accepted(round, InitialForm)
  }

  /** Submitting from the page: a rejected form leaves the match and the
      form as they were; an accepted one records the round and resets the
      form. */
  function SubmitRound(game: GameState, f: FormState): (r: (GameState, FormState))
    ensures Submit(f).Rejected? ==> r.0 == game && r.1 == f
    ensures Submit(f).Accepted? ==> r.0 == RecordRound(game, Submit(f).round) && r.1 == InitialForm
  {
    match Submit(f)
    case Rejected(_) => (game, f)
    case Accepted(round, next) => (RecordRound(game, round), next)
  }

  /** From a well-formed form every submitted call is resolved, names a
      distinct player, and counts for scoring when it names a seat. */
  lemma SubmittedCallsResolved(f: FormState, players: seq<Player>)
    requires CallsWellFormed(f) && Submit(f).Accepted?
    ensures var calls := Submit(f).round.playerTichuCalls;
            forall j :: 0 <= j < |calls| ==> calls[j].success.Some?
    ensures var calls := Submit(f).round.playerTichuCalls;
            forall j :: 0 <= j < |calls| && 0 <= calls[j].playerIndex < |players| ==> Counts(players, calls[j])
    ensures var calls := Submit(f).round.playerTichuCalls;
            forall j, j' :: 0 <= j < j' < |calls| ==> calls[j].playerIndex != calls[j'].playerIndex
  {
    var calls := Submit(f).round.playerTichuCalls;
    BuildCallsDistinct(f.playerTichuCalls, f.playerTichuSuccess);
    forall j | 0 <= j < |calls|
      ensures calls[j].success.Some?
    {
      var k := calls[j].playerIndex;
      assert HasKey(f.playerTichuCalls, k);
      var i :| 0 <= i < |f.playerTichuCalls| && f.playerTichuCalls[i].key == k;
      assert HasKey(f.playerTichuSuccess, k);
      assert Get(f.playerTichuSuccess, k) != Some(None);
    }
  }

  /** The controls of the form, as events. */
  datatype FormEvent =
    | PickCall(playerIndex: int, call: TichuCall)
    | PickOutcome(playerIndex: int, success: bool)
    | EditTeamA(value: Option<int>)
    | EditTeamB(value: Option<int>)
    | CheckDoubleVictory(checked: bool)
    | PickDoubleVictoryTeam(team: Team)

  function Handle(f: FormState, e: FormEvent): FormState {
    match e
    case PickCall(i, c) => ChooseCall(f, i, c)
    case PickOutcome(i, b) => ResolveCall(f, i, b)
    case EditTeamA(v) => ChangeTeamACardPoints(f, v)
    case EditTeamB(v) => ChangeTeamBCardPoints(f, v)
    case CheckDoubleVictory(b) => ToggleDoubleVictory(f, b)
    case PickDoubleVictoryTeam(t) => ChooseDoubleVictoryTeam(f, t)
  }

  /** The form after a sequence of events, first to last. */
  function HandleAll(f: FormState, events: seq<FormEvent>): FormState
    decreases |events|
  {
    if |events| == 0 then f else HandleAll(Handle(f, events[0]), events[1..])
  }

  /** Whatever the user does from a fresh form, the call maps stay well
      formed. */
  lemma {:induction false} EventsKeepCallsWellFormed(f: FormState, events: seq<FormEvent>)
    requires CallsWellFormed(f)
    ensures CallsWellFormed(HandleAll(f, events))
    decreases |events|
  {
    if |events| > 0 {
      var g := Handle(f, events[0]);
      if events[0].PickCall? {
        ChooseCallKeepsCallsWellFormed(f, events[0].playerIndex, events[0].call);
      }
      assert CallsWellFormed(g);
      EventsKeepCallsWellFormed(g, events[1..]);
    }
  }

  /** Picking a team lets a double-victory form past the team check, and
      the picked team is the one the round carries. */
  lemma ChosenTeamIsSubmitted(f: FormState, team: Team)
    requires f.doubleVictory
    ensures Submit(ChooseDoubleVictoryTeam(f, team)) != Rejected(DoubleVictoryTeamMissing)
    ensures var s := Submit(ChooseDoubleVictoryTeam(f, team));
            AllResolved(f.playerTichuCalls, f.playerTichuSuccess) ==>
              s.Accepted? && s.round.doubleVictoryTeam == Some(team) && DoubleVictoryDecided(s.round)
  {
  }

  /** What the engine may take for granted of a round the form hands over:
      card points summing to 100 unless it is a double victory, a team
      present exactly when it is one, every call an actual resolved call,
      and no player named twice. */
  predicate ValidRound(r: RoundResult) {
    && (!r.doubleVictory ==> r.teamAScore + r.teamBScore == 100)
    && (r.doubleVictoryTeam.Some? <==> r.doubleVictory)
    && (forall j :: 0 <= j < |r.playerTichuCalls| ==>
          r.playerTichuCalls[j].call != NoCall && r.playerTichuCalls[j].success.Some?)
    && (forall j, j' :: 0 <= j < j' < |r.playerTichuCalls| ==>
          r.playerTichuCalls[j].playerIndex != r.playerTichuCalls[j'].playerIndex)
  }

  /** Any round the form hands to the engine, after any sequence of edits
      from the fresh form, is a valid round. */
  lemma AcceptedRoundsAreValid(events: seq<FormEvent>)
    requires Submit(HandleAll(InitialForm, events)).Accepted?
    ensures ValidRound(Submit(HandleAll(InitialForm, events)).round)
  {
    EventsKeepCallsWellFormed(InitialForm, events);
    SubmittedCallsResolved(HandleAll(InitialForm, events), []);
  }
}
