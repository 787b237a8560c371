/**
 * Board dimensions, zones and movement limits (src/constants/chess/board.ts).
 */
module BoardConstants {
  import opened ChessTypes

  /** BOARD_SIZE */
  const BoardSize: nat := 4
  /** PIECES_PER_PLAYER */
  const PiecesPerPlayer: nat := 4
  /** PLAYER1_START_ROWS: the bottom row. */
  const Player1StartRows: seq<int> := [3]
  /** PLAYER2_START_ROWS: the top row. */
  const Player2StartRows: seq<int> := [0]
  /** PLAYER1_FINISH_ROWS is the opponent's start. */
  const Player1FinishRows: seq<int> := Player2StartRows
  /** PLAYER2_FINISH_ROWS is the opponent's start. */
  const Player2FinishRows: seq<int> := Player1StartRows
  /** MIN_MOVE_STEPS */
  const MinMoveSteps: int := 1
  /** MAX_MOVE_STEPS */
  const MaxMoveSteps: int := 3
  /** ROTATE_MOVE_LIMIT: a rotating move may go at most this far. */
  const RotateMoveLimit: int := 1
  /** MAX_CONSECUTIVE_PASSES */
  const MaxConsecutivePasses: int := 1

  /** getStartRows */
  function GetStartRows(player: Player): seq<int> {
    if player == Player1 then Player1StartRows else Player2StartRows
  }

  /** getFinishRows */
  function GetFinishRows(player: Player): seq<int> {
    if player == Player1 then Player1FinishRows else Player2FinishRows
  }

  /** isRowInStartZone */
  predicate IsRowInStartZone(row: int, player: Player) {
    var startRows := if player == Player1 then Player1StartRows else Player2StartRows;
    row in startRows
  }

  /** isRowInFinishZone */
  predicate IsRowInFinishZone(row: int, player: Player) {
    var finishRows := if player == Player1 then Player1FinishRows else Player2FinishRows;
    row in finishRows
  }

  /** DEFAULT_GAME_CONFIG (without the mode). */
  const DefaultGameConfig: GameConfig :=
    GameConfig(BoardSize, PiecesPerPlayer, MaxMoveSteps, RotateMoveLimit, false)

  /** Each player finishes where the opponent starts. */
  lemma FinishIsOpponentStart(p: Player)
    ensures GetFinishRows(p) == GetStartRows(Opponent(p))
  {
  }

  /** The zone predicates are membership in the row lists, so finishing for one player is starting for the other. */
  lemma ZoneMembership(row: int, p: Player)
    ensures IsRowInStartZone(row, p) <==> row in GetStartRows(p)
    ensures IsRowInFinishZone(row, p) <==> row in GetFinishRows(p)
    ensures IsRowInFinishZone(row, p) <==> IsRowInStartZone(row, Opponent(p))
    ensures IsRowInStartZone(row, p) ==> !IsRowInStartZone(row, Opponent(p))
    ensures IsRowInStartZone(row, p) ==> 0 <= row < BoardSize
    ensures IsRowInFinishZone(row, p) ==> 0 <= row < BoardSize
  {
  }

  /** The step limits are ordered, and the default configuration carries the board constants. */
  lemma StepLimitsOrdered()
    ensures MinMoveSteps <= RotateMoveLimit <= MaxMoveSteps
    ensures DefaultGameConfig.boardSize == 4 && DefaultGameConfig.piecesPerPlayer == 4
    ensures !DefaultGameConfig.allowPassTwice
  {
  }
}
