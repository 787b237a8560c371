/**
 * Vocabulary of the puzzle-chess game (src/types/chess/index.ts): edge types, sides,
 * rotations, players, the eight movement directions with their unit vectors and facing
 * sides, positions, pieces, board cells, moves and the game state records.
 *
 * Pieces are identified by their string id; cells and moves refer to pieces by id and the
 * piece records themselves live in an id-keyed map (the "arena") owned by the game state.
 */
module ChessTypes {
  import opened Util

  /** '1+', '1-', '1`+', '1`-': forward/backward, convex/concave. */
  datatype EdgeType = Plus | Minus | BackPlus | BackMinus

  datatype EdgeSide = Top | Right | Bottom | Left

  /** One edge per side, at rotation 0. */
  datatype Edges = Edges(top: EdgeType, right: EdgeType, bottom: EdgeType, left: EdgeType)

  /** `edges[side]` */
  function EdgeOn(e: Edges, s: EdgeSide): EdgeType {
    match s
    case Top => e.top
    case Right => e.right
    case Bottom => e.bottom
    case Left => e.left
  }

  /** Rotation in degrees, clockwise. */
  type Rotation = r: int | r == 0 || r == 90 || r == 180 || r == 270

  /** The rotation cycle [0, 90, 180, 270] (ROTATION_ANGLES and the local arrays of the engine). */
  const AllRotations: seq<Rotation> := [0, 90, 180, 270]

  datatype Player = Player1 | Player2

  /** The numeric value of the Player enum (1 or 2). */
  function PlayerNumber(p: Player): nat {
    if p == Player1 then 1 else 2
  }

  function Opponent(p: Player): Player {
    if p == Player1 then Player2 else Player1
  }

  datatype Direction = Up | Down | Left | Right | UpLeft | UpRight | DownLeft | DownRight

  /** The keys of DIRECTION_VECTORS in declaration order (the order Object.keys/entries yields). */
  const AllDirections: seq<Direction> :=
    [Direction.Up, Direction.Down, Direction.Left, Direction.Right,
     Direction.UpLeft, Direction.UpRight, Direction.DownLeft, Direction.DownRight]

  datatype DirectionVector = DirectionVector(row: int, col: int)

  /** DIRECTION_VECTORS */
  function VectorOf(d: Direction): DirectionVector {
    match d
    case Up => DirectionVector(-1, 0)
    case Down => DirectionVector(1, 0)
    case Left => DirectionVector(0, -1)
    case Right => DirectionVector(0, 1)
    case UpLeft => DirectionVector(-1, -1)
    case UpRight => DirectionVector(-1, 1)
    case DownLeft => DirectionVector(1, -1)
    case DownRight => DirectionVector(1, 1)
  }

  predicate IsOrthogonal(d: Direction) {
    d == Direction.Up || d == Direction.Down || d == Direction.Left || d == Direction.Right
  }

  /** The side of the moving piece (`from`) and of the neighbour (`to`) that face each other. */
  datatype EdgePair = EdgePair(from: EdgeSide, to: EdgeSide)

  /** DIRECTION_TO_EDGE; diagonals reuse the vertical pair. */
  function DirectionToEdge(d: Direction): EdgePair {
    match d
    case Up => EdgePair(Top, Bottom)
    case Down => EdgePair(Bottom, Top)
    case Left => EdgePair(EdgeSide.Left, EdgeSide.Right)
    case Right => EdgePair(EdgeSide.Right, EdgeSide.Left)
    case UpLeft => EdgePair(Top, Bottom)
    case UpRight => EdgePair(Top, Bottom)
    case DownLeft => EdgePair(Bottom, Top)
    case DownRight => EdgePair(Bottom, Top)
  }

  datatype Position = Position(row: int, col: int)

  type PieceId = string

  /** PieceShape without its display name and SVG path. */
  datatype PieceShape = PieceShape(id: int, edges: Edges)

  /** A piece instance; `position == None` means held off-board. */
  datatype ChessPiece = ChessPiece(
    id: PieceId,
    player: Player,
    shapeId: int,
    rotation: Rotation,
    position: Option<Position>,
    isOnBoard: bool,
    isBird: bool)

  datatype ZoneMarkers = ZoneMarkers(player1: bool, player2: bool)

  /** A cell: its position, its stack of piece ids (bottom first) and its zone markers. */
  datatype BoardCell = BoardCell(
    position: Position,
    pieces: seq<PieceId>,
    isStartZone: ZoneMarkers,
    isFinishZone: ZoneMarkers)

  /** A move; `from == None` is an initial placement. The timestamp is not modelled. */
  datatype Move = Move(
    pieceId: PieceId,
    from: Option<Position>,
    to: Position,
    steps: int,
    needRotation: bool,
    newRotation: Option<Rotation>,
    canFit: bool)

  /** The reasons validateMove gives, in the order it checks them. */
  datatype InvalidReason =
    | NotOnBoard          // 'Piece must be placed on board first'
    | OutOfBounds         // 'Target position is out of bounds'
    | NoMovement          // 'Must move to a different position or rotate'
    | NotStraight         // 'Must move in a straight line or diagonal'
    | DistanceOutOfRange  // 'Must move 1-3 cells'
    | RotationTooFar      // 'Can only move 1 cell when rotating'
    | CannotFit           // 'Cannot fit at target position (no matching edges)'

  datatype MoveValidation = Valid | Invalid(reason: InvalidReason)

  datatype EdgeMatchInfo = EdgeMatchInfo(
    direction: Direction,
    myEdge: EdgeType,
    theirEdge: EdgeType,
    neighborPiece: PieceId)

  datatype FitCheckResult = FitCheckResult(
    canFit: bool,
    matchingPieces: seq<PieceId>,
    matchingEdges: seq<EdgeMatchInfo>)

  datatype PlayerStats = PlayerStats(
    totalMoves: nat,
    totalUndos: nat,
    consecutiveUndos: nat,
    totalPasses: nat)

  datatype PassCount = PassCount(player1: nat, player2: nat)

  /**
   * GameState without mode, threat info, the start timestamp and the alias of the board cells
   * (the engine's board object holds those). `pieces` is the arena of all pieces by id;
   * `player1Pieces`/`player2Pieces` give each player's pieces in creation order.
   */
  datatype GameState = GameState(
    currentPlayer: Player,
    pieces: map<PieceId, ChessPiece>,
    player1Pieces: seq<PieceId>,
    player2Pieces: seq<PieceId>,
    moveHistory: seq<Move>,
    passCount: PassCount,
    player1Stats: PlayerStats,
    player2Stats: PlayerStats,
    winner: Option<Player>,
    turnNumber: nat)

  /** GameConfig without the game mode. */
  datatype GameConfig = GameConfig(
    boardSize: nat,
    piecesPerPlayer: nat,
    maxMoveSteps: int,
    rotateStepLimit: int,
    allowPassTwice: bool)

  /** isValidPosition(pos, boardSize) */
  predicate IsValidPosition(pos: Position, boardSize: int) {
    pos.row >= 0 && pos.row < boardSize && pos.col >= 0 && pos.col < boardSize
  }

  /** positionsEqual */
  predicate PositionsEqual(a: Position, b: Position) {
    a.row == b.row && a.col == b.col
  }

  // ---------------------------------------------------------------- piece ids

  function DigitChar(d: nat): char
    requires d < 10
  {
    "0123456789"[d]
  }

  predicate IsDigit(c: char) {
    '0' <= c <= '9'
  }

  /** The decimal rendering of a non-negative integer, as a template literal prints it. */
  function NatToString(n: nat): (s: string)
    ensures |s| >= 1
    ensures n >= 10 ==> |s| >= 2
    ensures forall i :: 0 <= i < |s| ==> IsDigit(s[i])
    decreases n
  {
    if n < 10 then [DigitChar(n)] else NatToString(n / 10) + [DigitChar(n % 10)]
  }

  /** generatePieceId: `p${player}-piece${shapeId}-${index}` */
  function GeneratePieceId(player: Player, shapeId: nat, index: nat): PieceId {
    "p" + NatToString(PlayerNumber(player)) + "-piece" + NatToString(shapeId) + "-" + NatToString(index)
  }

  lemma DigitCharInjective(a: nat, b: nat)
    requires a < 10 && b < 10 && DigitChar(a) == DigitChar(b)
    ensures a == b
  {
  }

  /** Distinct numbers print differently. */
  lemma {:induction false} NatToStringInjective(a: nat, b: nat)
    requires NatToString(a) == NatToString(b)
    ensures a == b
    decreases a
  {
    var sa, sb := NatToString(a), NatToString(b);
    if a < 10 && b < 10 {
      DigitCharInjective(a, b);
    } else if a >= 10 && b >= 10 {
      assert sa[|sa| - 1] == DigitChar(a % 10) && sb[|sb| - 1] == DigitChar(b % 10);
      DigitCharInjective(a % 10, b % 10);
      assert NatToString(a / 10) == sa[..|sa| - 1] == sb[..|sb| - 1] == NatToString(b / 10);
      NatToStringInjective(a / 10, b / 10);
    }
  }

  /** The first '-' of a + "-" + r is the one after a, when a holds no '-'. */
  lemma FirstDash(a: string, r: string)
    requires forall i :: 0 <= i < |a| ==> a[i] != '-'
    ensures IndexOf(a + "-" + r, '-') == |a|
  {
    var s := a + "-" + r;
    assert s[|a|] == '-';
    var k := IndexOf(s, '-');
    assert forall i :: 0 <= i < |a| ==> s[i] == a[i];
  }

  /** Splitting at the first '-' is unambiguous when the first part holds no '-'. */
  lemma SplitAtDash(a1: string, r1: string, a2: string, r2: string)
    requires forall i :: 0 <= i < |a1| ==> a1[i] != '-'
    requires forall i :: 0 <= i < |a2| ==> a2[i] != '-'
    requires a1 + "-" + r1 == a2 + "-" + r2
    ensures a1 == a2 && r1 == r2
  {
    var s1, s2 := a1 + "-" + r1, a2 + "-" + r2;
    FirstDash(a1, r1);
    FirstDash(a2, r2);
    assert a1 == s1[..|a1|] && a2 == s2[..|a2|];
    assert r1 == s1[|a1| + 1..] && r2 == s2[|a2| + 1..];
  }

  /** A generated id is an eight-character head naming the player, then `<shapeId>-<index>`. */
  lemma GeneratePieceIdShape(p: Player, s: nat, i: nat)
    ensures var id := GeneratePieceId(p, s, i);
      |id| > 8 && id[1] == DigitChar(PlayerNumber(p)) && id[8..] == NatToString(s) + "-" + NatToString(i)
  {
    var head := "p" + NatToString(PlayerNumber(p)) + "-piece";
    assert |head| == 8;
    var tail := NatToString(s) + "-" + NatToString(i);
    assert GeneratePieceId(p, s, i) == head + tail;
    assert (head + tail)[8..] == tail;
  }

  /** A printed number holds no '-'. */
  lemma NoDashInNumber(n: nat)
    ensures forall i :: 0 <= i < |NatToString(n)| ==> NatToString(n)[i] != '-'
  {
    var s := NatToString(n);
    forall i | 0 <= i < |s| ensures s[i] != '-' {
      assert IsDigit(s[i]);
    }
  }

  /** The "Unique ID" contract of ChessPiece.id: distinct (player, shapeId, index) give distinct ids. */
  lemma GeneratePieceIdInjective(p1: Player, s1: nat, i1: nat, p2: Player, s2: nat, i2: nat)
    requires GeneratePieceId(p1, s1, i1) == GeneratePieceId(p2, s2, i2)
    ensures p1 == p2 && s1 == s2 && i1 == i2
  {
    GeneratePieceIdShape(p1, s1, i1);
    GeneratePieceIdShape(p2, s2, i2);
    DigitCharInjective(PlayerNumber(p1), PlayerNumber(p2));
    NoDashInNumber(s1);
    NoDashInNumber(s2);
    SplitAtDash(NatToString(s1), NatToString(i1), NatToString(s2), NatToString(i2));
    NatToStringInjective(s1, s2);
    NatToStringInjective(i1, i2);
  }

  // ---------------------------------------------------------------- table facts

  /** DIRECTION_VECTORS: distinct unit vectors, none zero, covering every non-zero sign pair. */
  lemma DirectionVectorsTable()
    ensures forall d1: Direction, d2: Direction :: d1 != d2 ==> VectorOf(d1) != VectorOf(d2)
    ensures forall d: Direction :: -1 <= VectorOf(d).row <= 1 && -1 <= VectorOf(d).col <= 1
    ensures forall d: Direction :: VectorOf(d) != DirectionVector(0, 0)
    ensures forall r, c :: -1 <= r <= 1 && -1 <= c <= 1 && (r, c) != (0, 0) ==>
      exists d: Direction :: VectorOf(d) == DirectionVector(r, c)
    ensures |AllDirections| == 8
    ensures forall d: Direction :: d in AllDirections
    ensures NoDuplicates(AllDirections)
  {
    forall r, c | -1 <= r <= 1 && -1 <= c <= 1 && (r, c) != (0, 0)
      ensures exists d: Direction :: VectorOf(d) == DirectionVector(r, c)
    {
      var d: Direction :=
        if r == -1 then (if c == -1 then UpLeft else if c == 0 then Direction.Up else UpRight)
        else if r == 0 then (if c == -1 then Direction.Left else Direction.Right)
        else (if c == -1 then DownLeft else if c == 0 then Direction.Down else DownRight);
      assert VectorOf(d) == DirectionVector(r, c);
    }
    forall d: Direction ensures d in AllDirections {
      match d
      case Up => assert AllDirections[0] == d;
      case Down => assert AllDirections[1] == d;
      case Left => assert AllDirections[2] == d;
      case Right => assert AllDirections[3] == d;
      case UpLeft => assert AllDirections[4] == d;
      case UpRight => assert AllDirections[5] == d;
      case DownLeft => assert AllDirections[6] == d;
      case DownRight => assert AllDirections[7] == d;
    }
  }

  /** positionsEqual is equality of positions, hence reflexive and symmetric. */
  lemma PositionsEqualIsEquality(a: Position, b: Position)
    ensures PositionsEqual(a, b) <==> a == b
    ensures PositionsEqual(a, a)
    ensures PositionsEqual(a, b) == PositionsEqual(b, a)
  {
  }

  /** isValidPosition holds of exactly the n * n cells of an n-by-n board. */
  lemma ValidPositionsAreCells(n: nat)
    ensures forall p: Position :: IsValidPosition(p, n) <==> p in CellPositions(n)
  {
    forall p: Position ensures IsValidPosition(p, n) <==> p in CellPositions(n) {
      if IsValidPosition(p, n) {
        assert p == Position(p.row, p.col);
      }
    }
  }

  /** The positions of an n-by-n board. */
  function CellPositions(n: nat): (s: set<Position>)
  {
    set r, c | 0 <= r < n && 0 <= c < n :: Position(r, c)
  }
}
