/** The entities of the Tichu score keeper: teams, players, Tichu calls,
    recorded rounds and the match state. */
module TichuTypes {
  import opened Outcomes

  /** The two partnerships at the table. */
  datatype Team = TeamA | TeamB

  /** A player's declaration for a round. The score keeper spells the last
      value 'None'; it is `NoCall` here so as not to clash with `Option.None`. */
  datatype TichuCall = Tichu | GrandTichu | NoCall

  datatype Player = Player(name: string, team: Team)

  /** One player's call in a round. `playerIndex` is meant to index the
      players array (0..3), but nothing enforces it, so it is an `int`;
      `success` is absent while the call is unresolved. */
  datatype PlayerTichuCall = PlayerTichuCall(playerIndex: int, call: TichuCall, success: Option<bool>)

  /** A recorded round. `teamAScore`/`teamBScore` are the card points as
      entered; `doubleVictoryTeam` is nullable. */
  datatype RoundResult = RoundResult(
    teamAScore: int,
    teamBScore: int,
    playerTichuCalls: seq<PlayerTichuCall>,
    doubleVictory: bool,
    doubleVictoryTeam: Option<Team>)

  datatype GameStatus = NotStarted | InProgress | Finished

  /** The match state owned by the engine. */
  datatype GameState = GameState(
    players: seq<Player>,
    teamAScore: int,
    teamBScore: int,
    rounds: seq<RoundResult>,
    currentDealerIndex: int,
    gameStatus: GameStatus,
    winner: Option<Team>)

  /** A pair of per-team points: a round delta or a running total. */
  datatype Score = Score(a: int, b: int)

  const Zero := Score(0, 0)

  function Plus(x: Score, y: Score): Score {
    Score(x.a + y.a, x.b + y.b)
  }

  /** `points` credited to `team` alone. */
  function Credit(team: Team, points: int): Score {
    if team == TeamA then Score(points, 0) else Score(0, points)
  }
}
