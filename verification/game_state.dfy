/**
 * `GameState`: the per-room game object. The class as it stands declares only the counter
 * `m`, the pending `otherCard` and `reset()`; everything else the endpoints call on it
 * (adding a card, round completion and result, advancing, the bet, the recorded outcome and
 * its end time) has no definition in the code, so those calls are the uninterpreted function
 * fields of `RoundRules`, passed to every transition that uses them.
 */
module GameStateModel {
  import opened Options

  /** The declared fields: `Integer m = 0` and `Integer otherCard` (initially `null`). */
  datatype GameState = GameState(m: int, otherCard: Option<int>)

  /** `new GameState()`. */
  function Fresh(): (g: GameState)
    ensures g.m == 0 && g.otherCard == None
  {
    GameState(0, None)
  }

  /**
   * `reset()`: whatever the prior values, the object afterwards is field-for-field (Lombok
   * `@Data` equality) the same as a freshly constructed one.
   */
  function Reset(g: GameState): (r: GameState)
    ensures r.m == 0 && r.otherCard == None
    ensures r == Fresh()
  {
    g.(m := 0, otherCard := None)
  }

  /** Resetting twice is the same as resetting once. */
  lemma ResetIdempotent(g: GameState)
    ensures Reset(Reset(g)) == Reset(g)
  {
  }

  /**
   * The outcome string of `determineRoundResult()`: the three constants the endpoints test
   * for, and every other string (a draw included) as `Other`.
   */
  datatype RoundResult = Continue | RedWin | BlueWin | Other

  /** What a stored game record exposes: `getRoomId()`, `getWinner()`, `getGameEndTime()`. */
  datatype GameRecord = GameRecord(roomId: int, winner: string, endTime: int)

  /** The `GameState` methods the endpoints call but that are not defined in the code. */
  datatype RoundRules = RoundRules(
    addCard: (GameState, Option<string>, int) -> GameState,
    roundComplete: GameState -> bool,
    roundResult: GameState -> RoundResult,
    nextRound: GameState -> GameState,
    completed: GameState -> bool,
    bet: GameState -> int,
    roundNumber: GameState -> int,
    redCard: GameState -> int,
    blueCard: GameState -> int,
    recordResult: (GameState, string, string) -> GameState,
    setRoomId: (GameState, int) -> GameState,
    createRecord: GameState -> GameRecord)
}
