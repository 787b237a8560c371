/**
 * Move validation and move generation (src/classes/chess/MoveValidator.ts).
 *
 * Distances, directions and validateMove are functions. getPath, getPossibleMoves,
 * getPossiblePositions, canPieceMove and getBestMove are loops in the source and are methods
 * here, each proved equal to a specification function about which the lemmas speak.
 */
module MoveValidator {
  import opened Util
  import opened ChessTypes
  import opened Pieces
  import opened BoardConstants
  import opened EdgeMatcher

  // ---------------------------------------------------------------- distances

  function Max(a: nat, b: nat): nat {
    if a >= b then a else b
  }

  /** calculateDistance: the Manhattan distance. */
  function CalculateDistance(from: Position, to: Position): nat {
    Abs(to.row - from.row) + Abs(to.col - from.col)
  }

  /** calculateChebyshevDistance: the larger of the row and the column distance. */
  function CalculateChebyshevDistance(from: Position, to: Position): nat {
    Max(Abs(to.row - from.row), Abs(to.col - from.col))
  }

  /** Both distances vanish exactly on equal positions, are symmetric, and bound each other. */
  lemma DistanceFacts(from: Position, to: Position)
    ensures CalculateDistance(from, to) == 0 <==> from == to
    ensures CalculateChebyshevDistance(from, to) == 0 <==> from == to
    ensures CalculateChebyshevDistance(from, to) <= CalculateDistance(from, to)
    ensures CalculateDistance(from, to) <= 2 * CalculateChebyshevDistance(from, to)
    ensures CalculateDistance(from, to) == CalculateDistance(to, from)
    ensures CalculateChebyshevDistance(from, to) == CalculateChebyshevDistance(to, from)
  {
  }

  // ---------------------------------------------------------------- directions

  /** `d === 0 ? 0 : d / Math.abs(d)`: the sign of d. */
  function Sign(x: int): int {
    if x == 0 then 0 else if x > 0 then 1 else -1
  }

  /** The for-of search of getDirection: the first direction of `dirs` whose vector is v. */
  function FindDirection(dirs: seq<Direction>, v: DirectionVector): Option<Direction> {
    if dirs == [] then None
    else if VectorOf(dirs[0]) == v then Some(dirs[0])
    else FindDirection(dirs[1..], v)
  }

  /**
   * getDirection: the direction whose vector is the pair of signs of the row and column
   * differences. Only the signs are compared, so the target need not lie on a line.
   */
  function GetDirection(from: Position, to: Position): Option<Direction> {
    FindDirection(AllDirections, DirectionVector(Sign(to.row - from.row), Sign(to.col - from.col)))
  }

  /** The target lies on a row, a column or a diagonal through the start. */
  predicate Aligned(from: Position, to: Position) {
    var dr, dc := to.row - from.row, to.col - from.col;
    dr == 0 || dc == 0 || Abs(dr) == Abs(dc)
  }

  /** getPositionInDirection: `steps` unit steps along the direction's vector. */
  function GetPositionInDirection(position: Position, direction: Direction, steps: int): Position {
    var vector := VectorOf(direction);
    Position(position.row + vector.row * steps, position.col + vector.col * steps)
  }

  /** The search finds a direction with the vector if there is one in `dirs`, and only then. */
  lemma {:induction false} FindDirectionSpec(dirs: seq<Direction>, v: DirectionVector)
    ensures FindDirection(dirs, v).Some? ==>
      FindDirection(dirs, v).value in dirs && VectorOf(FindDirection(dirs, v).value) == v
    ensures FindDirection(dirs, v).None? <==> forall d :: d in dirs ==> VectorOf(d) != v
    decreases |dirs|
  {
    if dirs != [] {
      FindDirectionSpec(dirs[1..], v);
      assert forall d :: d in dirs <==> d == dirs[0] || d in dirs[1..];
    }
  }

  /**
   * getDirection returns null exactly for equal positions; otherwise the direction it returns
   * has the signs of the differences as its vector.
   */
  lemma GetDirectionSpec(from: Position, to: Position)
    ensures GetDirection(from, to).None? <==> from == to
    ensures GetDirection(from, to).Some? ==>
      VectorOf(GetDirection(from, to).value) ==
        DirectionVector(Sign(to.row - from.row), Sign(to.col - from.col))
  {
    var v := DirectionVector(Sign(to.row - from.row), Sign(to.col - from.col));
    FindDirectionSpec(AllDirections, v);
    if from != to {
      var d := SignDirection(v);
      InAllDirections(d);
    } else {
      forall d: Direction ensures VectorOf(d) != v {
        NoZeroVector(d);
      }
    }
  }

  /** The direction with a given non-zero sign pair as its vector. */
  function SignDirection(v: DirectionVector): (d: Direction)
    requires -1 <= v.row <= 1 && -1 <= v.col <= 1 && v != DirectionVector(0, 0)
    ensures VectorOf(d) == v
  {
    if v.row == -1 then (if v.col == -1 then UpLeft else if v.col == 0 then Direction.Up else UpRight)
    else if v.row == 0 then (if v.col == -1 then Direction.Left else Direction.Right)
    else (if v.col == -1 then DownLeft else if v.col == 0 then Direction.Down else DownRight)
  }

  lemma InAllDirections(d: Direction)
    ensures d in AllDirections
  {
    match d
    case Up => assert AllDirections[0] == d;
    case Down => assert AllDirections[1] == d;
    case Left => assert AllDirections[2] == d;
    case Right => assert AllDirections[3] == d;
    case UpLeft => assert AllDirections[4] == d;
    case UpRight => assert AllDirections[5] == d;
    case DownLeft => assert AllDirections[6] == d;
    case DownRight => assert AllDirections[7] == d;
  }

  lemma NoZeroVector(d: Direction)
    ensures VectorOf(d) != DirectionVector(0, 0)
  {
  }

  /** `steps` unit steps from p end at Chebyshev distance `steps`; getDirection recovers the direction. */
  lemma PositionInDirectionSpec(position: Position, direction: Direction, steps: nat)
    ensures CalculateChebyshevDistance(position, GetPositionInDirection(position, direction, steps)) == steps
    ensures steps > 0 ==> GetDirection(position, GetPositionInDirection(position, direction, steps)) == Some(direction)
    ensures Aligned(position, GetPositionInDirection(position, direction, steps))
  {
    var target := GetPositionInDirection(position, direction, steps);
    if steps > 0 {
      GetDirectionSpec(position, target);
      assert target != position;
      match direction
      case Up => assert Sign(target.row - position.row) == -1;
      case Down => assert Sign(target.row - position.row) == 1;
      case Left => assert Sign(target.col - position.col) == -1;
      case Right => assert Sign(target.col - position.col) == 1;
      case UpLeft => assert Sign(target.row - position.row) == -1;
      case UpRight => assert Sign(target.row - position.row) == -1;
      case DownLeft => assert Sign(target.row - position.row) == 1;
      case DownRight => assert Sign(target.row - position.row) == 1;
    }
  }

  /** On an aligned pair, Chebyshev-distance many steps in the direction getDirection gives reach the target. */
  lemma GetDirectionAligned(from: Position, to: Position)
    requires Aligned(from, to) && from != to
    ensures GetDirection(from, to).Some?
    ensures GetPositionInDirection(from, GetDirection(from, to).value, CalculateChebyshevDistance(from, to)) == to
  {
    GetDirectionSpec(from, to);
    var n := CalculateChebyshevDistance(from, to);
    var v := VectorOf(GetDirection(from, to).value);
    SignTimesDistance(to.row - from.row, n);
    SignTimesDistance(to.col - from.col, n);
  }

  /** A component of an aligned difference is 0 or has the full Chebyshev length. */
  lemma SignTimesDistance(x: int, n: nat)
    requires x == 0 || Abs(x) == n
    ensures Sign(x) * n == x
  {
  }

  /** getDirection looks only at signs: from (4,4) it sends (2,5) up-right although (2,5) is on no diagonal. */
  lemma GetDirectionSignOnly()
    ensures GetDirection(Position(4, 4), Position(2, 5)) == Some(Direction.UpRight)
    ensures !Aligned(Position(4, 4), Position(2, 5))
  {
    assert VectorOf(AllDirections[5]) == DirectionVector(-1, 1);
  }

  /** Getting from an unaligned start to the target along getDirection's direction takes no number of steps. */
  lemma UnalignedNeverReached(from: Position, to: Position, k: int)
    requires !Aligned(from, to)
    ensures GetDirection(from, to).Some?
    ensures GetPositionInDirection(from, GetDirection(from, to).value, k) != to
  {
    GetDirectionSpec(from, to);
  }

  // ---------------------------------------------------------------- getPath

  /** The first m positions of a walk from `from` along d, start excluded. */
  function Walk(from: Position, d: Direction, m: nat): seq<Position> {
    seq(m, k => GetPositionInDirection(from, d, k + 1))
  }

  /** The positions getPath visits: one unit step after another, start excluded. */
  function Path(from: Position, to: Position): seq<Position> {
    match GetDirection(from, to)
    case None => []
    case Some(d) => Walk(from, d, CalculateChebyshevDistance(from, to))
  }

  /**
   * getPath. The while loop stops only once `current` equals `to`, which on an unaligned pair
   * never happens (UnalignedNeverReached), so the pair must be aligned.
   */
  method GetPath(from: Position, to: Position) returns (path: seq<Position>)
    requires Aligned(from, to)
    ensures path == Path(from, to)
  {
    var direction := GetDirection(from, to);
    if direction.None? {
      return [];
    }
    var d := direction.value;
    ghost var n := CalculateChebyshevDistance(from, to);
    GetDirectionAligned(from, to);
    var vector := VectorOf(d);
    path := [];
    var current := from;
    while !PositionsEqual(current, to)
      invariant |path| <= n
      invariant current == GetPositionInDirection(from, d, |path|)
      invariant path == Walk(from, d, |path|)
      decreases n - |path|
    {
      PositionsEqualIsEquality(current, to);
      WalkStep(from, d, |path|);
      current := Position(current.row + vector.row, current.col + vector.col);
      path := path + [current];
    }
    PositionInDirectionSpec(from, d, |path|);
  }

  /** One more step of the walk adds the vector once to the last position. */
  lemma WalkStep(from: Position, d: Direction, m: nat)
    ensures var p := GetPositionInDirection(from, d, m);
      GetPositionInDirection(from, d, m + 1) == Position(p.row + VectorOf(d).row, p.col + VectorOf(d).col)
    ensures Walk(from, d, m + 1) == Walk(from, d, m) + [GetPositionInDirection(from, d, m + 1)]
  {
  }

  /**
   * The path has Chebyshev-distance many positions, ends at `to`, never visits `from`, and
   * each position is one unit step past the one before.
   */
  lemma PathSpec(from: Position, to: Position)
    requires Aligned(from, to)
    ensures var path := Path(from, to);
      |path| == CalculateChebyshevDistance(from, to) &&
      (from == to <==> path == []) &&
      (path != [] ==> path[|path| - 1] == to) &&
      from !in path &&
      forall k :: 0 <= k < |path| ==> CalculateChebyshevDistance(from, path[k]) == k + 1
  {
    var path := Path(from, to);
    GetDirectionSpec(from, to);
    if from != to {
      var d := GetDirection(from, to).value;
      GetDirectionAligned(from, to);
      forall k | 0 <= k < |path| ensures CalculateChebyshevDistance(from, path[k]) == k + 1 {
        PositionInDirectionSpec(from, d, k + 1);
      }
    }
  }

  /** Consecutive positions of the path, and the start and the first position, are one vector apart. */
  lemma PathSteps(from: Position, to: Position, k: nat)
    requires Aligned(from, to) && from != to && k < |Path(from, to)|
    ensures var v := VectorOf(GetDirection(from, to).value);
      var prev := if k == 0 then from else Path(from, to)[k - 1];
      Path(from, to)[k] == Position(prev.row + v.row, prev.col + v.col)
  {
    GetDirectionSpec(from, to);
  }

  // ---------------------------------------------------------------- validateMove

  /** `newRotation !== undefined && newRotation !== piece.rotation` */
  predicate ChangesRotation(piece: ChessPiece, newRotation: Option<Rotation>) {
    newRotation.Some? && newRotation.value != piece.rotation
  }

  /**
   * validateMove: the checks in the source's order, the first failing one deciding the reason.
   * The board is the grid of cells with the pieces they name; `board.length` is |grid|.
   * There is no test of the target's stack and no test that an in-place rotation is a bird's.
   */
  function ValidateMove(piece: ChessPiece, toPosition: Position, grid: Grid, arena: Arena,
                        newRotation: Option<Rotation>): MoveValidation
    requires IsValidShapeId(piece.shapeId) && WellFormed(grid, arena)
  {
    if !piece.isOnBoard || piece.position.None? then Invalid(NotOnBoard)
    else
      var from := piece.position.value;
      if !IsValidPosition(toPosition, |grid|) then Invalid(OutOfBounds)
      else if PositionsEqual(from, toPosition) then
        if newRotation.Some? && newRotation.value != piece.rotation then Valid else Invalid(NoMovement)
      else
        var distance := CalculateChebyshevDistance(from, toPosition);
        var direction := GetDirection(from, toPosition);
        if direction.None? then Invalid(NotStraight)
        else if distance < MinMoveSteps || distance > MaxMoveSteps then Invalid(DistanceOutOfRange)
        else if ChangesRotation(piece, newRotation) && distance > RotateMoveLimit then Invalid(RotationTooFar)
        else
          var testRotation := newRotation.GetOr(piece.rotation);
          if !FitResult(piece, toPosition, grid, arena, Some(testRotation)).canFit then Invalid(CannotFit)
          else Valid
  }

  /** The piece is on the board at `from`. */
  predicate OnBoardAt(piece: ChessPiece, from: Position) {
    piece.isOnBoard && piece.position == Some(from)
  }

  /**
   * Each reason is returned exactly when the checks before it pass and its own fails; the
   * straight-line check never fails, since getDirection is null only when nothing moves.
   */
  lemma ValidateMoveReasons(piece: ChessPiece, to: Position, grid: Grid, arena: Arena,
                            newRotation: Option<Rotation>)
    requires IsValidShapeId(piece.shapeId) && WellFormed(grid, arena)
    ensures var v := ValidateMove(piece, to, grid, arena, newRotation);
      var onBoard := piece.isOnBoard && piece.position.Some?;
      var from := piece.position.GetOr(to);
      var inBounds := IsValidPosition(to, |grid|);
      var distance := CalculateChebyshevDistance(from, to);
      (v == Invalid(NotOnBoard) <==> !onBoard) &&
      (v == Invalid(OutOfBounds) <==> onBoard && !inBounds) &&
      (v == Invalid(NoMovement) <==> onBoard && inBounds && from == to && !ChangesRotation(piece, newRotation)) &&
      v != Invalid(NotStraight) &&
      (v == Invalid(DistanceOutOfRange) <==> onBoard && inBounds && distance > MaxMoveSteps) &&
      (v == Invalid(RotationTooFar) <==>
        onBoard && inBounds && RotateMoveLimit < distance <= MaxMoveSteps && ChangesRotation(piece, newRotation))
  {
    if piece.isOnBoard && piece.position.Some? {
      var from := piece.position.value;
      PositionsEqualIsEquality(from, to);
      GetDirectionSpec(from, to);
      DistanceFacts(from, to);
    }
  }

  /**
   * A move is accepted exactly when the piece is on the board, the target is in bounds, and
   * either it stays put with a new rotation, or it goes 1 to 3 cells (1 if it also turns)
   * and fits there at the candidate rotation.
   */
  lemma ValidateMoveAccepts(piece: ChessPiece, to: Position, grid: Grid, arena: Arena,
                            newRotation: Option<Rotation>)
    requires IsValidShapeId(piece.shapeId) && WellFormed(grid, arena)
    ensures ValidateMove(piece, to, grid, arena, newRotation) == Valid <==>
      piece.isOnBoard && piece.position.Some? && IsValidPosition(to, |grid|) &&
      (piece.position.value == to ==> ChangesRotation(piece, newRotation)) &&
      (piece.position.value != to ==>
        CalculateChebyshevDistance(piece.position.value, to) <= MaxMoveSteps &&
        (ChangesRotation(piece, newRotation) ==> CalculateChebyshevDistance(piece.position.value, to) <= RotateMoveLimit) &&
        FitResult(piece, to, grid, arena, Some(newRotation.GetOr(piece.rotation))).canFit)
  {
    if piece.isOnBoard && piece.position.Some? {
      var from := piece.position.value;
      PositionsEqualIsEquality(from, to);
      GetDirectionSpec(from, to);
      DistanceFacts(from, to);
    }
  }

  /** Any piece may turn in place, bird or not, whatever its neighbours. */
  lemma InPlaceRotationAccepted(piece: ChessPiece, grid: Grid, arena: Arena, r: Rotation)
    requires IsValidShapeId(piece.shapeId) && WellFormed(grid, arena)
    requires piece.isOnBoard && piece.position.Some? && IsValidPosition(piece.position.value, |grid|)
    requires r != piece.rotation
    ensures ValidateMove(piece, piece.position.value, grid, arena, Some(r)) == Valid
  {
    PositionsEqualIsEquality(piece.position.value, piece.position.value);
  }

  /** The matches of checkFit at p do not depend on what is stacked at p itself. */
  lemma {:induction false} MatchesAlongIgnoresOwnCell(piece: ChessPiece, p: Position, grid: Grid, arena: Arena,
                                                      rotation: Rotation, dirs: seq<Direction>, stack: seq<PieceId>)
    requires IsValidShapeId(piece.shapeId) && WellFormed(grid, arena) && KnownIds(stack, arena)
    requires InGrid(grid, p)
    requires WellFormed(SetStack(grid, p, stack), arena)
    ensures MatchesAlong(piece, p, SetStack(grid, p, stack), arena, rotation, dirs) ==
            MatchesAlong(piece, p, grid, arena, rotation, dirs)
    decreases |dirs|
  {
    if dirs != [] {
      MatchesAlongIgnoresOwnCell(piece, p, grid, arena, rotation, dirs[..|dirs| - 1], stack);
      var d := dirs[|dirs| - 1];
      assert NeighborPosition(p, d) != p by {
        match d
        case Up =>
        case Down =>
        case Left =>
        case Right =>
        case UpLeft =>
        case UpRight =>
        case DownLeft =>
        case DownRight =>
      }
    }
  }

  /**
   * validateMove never looks at the target's own stack: filling or emptying it changes
   * nothing, so a piece may land on an occupied cell.
   */
  lemma NoOccupancyCheck(piece: ChessPiece, to: Position, grid: Grid, arena: Arena,
                         newRotation: Option<Rotation>, stack: seq<PieceId>)
    requires IsValidShapeId(piece.shapeId) && WellFormed(grid, arena) && KnownIds(stack, arena)
    requires InGrid(grid, to)
    ensures WellFormed(SetStack(grid, to, stack), arena)
    ensures ValidateMove(piece, to, SetStack(grid, to, stack), arena, newRotation) ==
            ValidateMove(piece, to, grid, arena, newRotation)
  {
    var g := SetStack(grid, to, stack);
    assert WellFormed(g, arena) by {
      forall r, c | 0 <= r < |g| && 0 <= c < |g[r]| ensures KnownIds(g[r][c].pieces, arena) {
        assert g[r][c].pieces == StackAt(g, Position(r, c));
        assert Position(r, c) != to ==> grid[r][c].pieces == StackAt(grid, Position(r, c));
      }
    }
    MatchesAlongIgnoresOwnCell(piece, to, grid, arena, newRotation.GetOr(piece.rotation), FitDirections, stack);
  }

  // ---------------------------------------------------------------- getPossibleMoves

  /** The rotations getPossibleMoves tries. */
  function CandidateRotations(piece: ChessPiece, includeRotations: bool): seq<Rotation> {
    if includeRotations then AllRotations else [piece.rotation]
  }

  /** The innermost loop: the accepted moves to one in-bounds target, one per tried rotation. */
  function MovesToTarget(piece: ChessPiece, grid: Grid, arena: Arena, target: Position, steps: int,
                         rots: seq<Rotation>): seq<Move>
    requires IsValidShapeId(piece.shapeId) && WellFormed(grid, arena)
    decreases |rots|
  {
    if rots == [] then []
    else
      var prev := MovesToTarget(piece, grid, arena, target, steps, rots[..|rots| - 1]);
      var rotation := rots[|rots| - 1];
      var needsRotation := rotation != piece.rotation;
      if needsRotation && steps > RotateMoveLimit then prev
      else if ValidateMove(piece, target, grid, arena, Some(rotation)) == Valid then
        prev + [Move(piece.id, piece.position, target, steps, needsRotation, Some(rotation), true)]
      else prev
  }

  /** The middle loop: the moves 1 to n steps along one direction, skipping targets out of bounds. */
  function MovesInDirection(piece: ChessPiece, grid: Grid, arena: Arena, from: Position, direction: Direction,
                            rots: seq<Rotation>, n: int): seq<Move>
    requires IsValidShapeId(piece.shapeId) && WellFormed(grid, arena)
    decreases n
  {
    if n < MinMoveSteps then []
    else
      var prev := MovesInDirection(piece, grid, arena, from, direction, rots, n - 1);
      var target := GetPositionInDirection(from, direction, n);
      if !IsValidPosition(target, |grid|) then prev
      else prev + MovesToTarget(piece, grid, arena, target, n, rots)
  }

  /** The outer loop: the moves along each of the directions, in order. */
  function MovesAlong(piece: ChessPiece, grid: Grid, arena: Arena, from: Position, rots: seq<Rotation>,
                      dirs: seq<Direction>): seq<Move>
    requires IsValidShapeId(piece.shapeId) && WellFormed(grid, arena)
    decreases |dirs|
  {
    if dirs == [] then []
    else
      MovesAlong(piece, grid, arena, from, rots, dirs[..|dirs| - 1]) +
      MovesInDirection(piece, grid, arena, from, dirs[|dirs| - 1], rots, MaxMoveSteps)
  }

  /** What getPossibleMoves returns. */
  function PossibleMoves(piece: ChessPiece, grid: Grid, arena: Arena, includeRotations: bool): seq<Move>
    requires IsValidShapeId(piece.shapeId) && WellFormed(grid, arena)
  {
    if !piece.isOnBoard || piece.position.None? then []
    else MovesAlong(piece, grid, arena, piece.position.value, CandidateRotations(piece, includeRotations), AllDirections)
  }

  /** The rotation loop of getPossibleMoves for one target, appending to `movesIn`. */
  method CollectMovesToTarget(piece: ChessPiece, grid: Grid, arena: Arena, target: Position, steps: int,
                              rotations: seq<Rotation>, movesIn: seq<Move>) returns (moves: seq<Move>)
    requires IsValidShapeId(piece.shapeId) && WellFormed(grid, arena)
    ensures moves == movesIn + MovesToTarget(piece, grid, arena, target, steps, rotations)
  {
    moves := movesIn;
    for i := 0 to |rotations|
      invariant moves == movesIn + MovesToTarget(piece, grid, arena, target, steps, rotations[..i])
    {
      MovesToTargetStep(piece, grid, arena, target, steps, rotations, i, movesIn);
      var rotation := rotations[i];
      var needsRotation := rotation != piece.rotation;
      if !(needsRotation && steps > RotateMoveLimit) {
        var validation := ValidateMove(piece, target, grid, arena, Some(rotation));
        if validation.Valid? {
          moves := moves + [Move(piece.id, piece.position, target, steps, needsRotation, Some(rotation), true)];
        }
      }
    }
    assert rotations[..|rotations|] == rotations;
  }

  /** One more rotation of the innermost loop, after the moves collected so far. */
  lemma MovesToTargetStep(piece: ChessPiece, grid: Grid, arena: Arena, target: Position, steps: int,
                          rots: seq<Rotation>, i: nat, movesIn: seq<Move>)
    requires IsValidShapeId(piece.shapeId) && WellFormed(grid, arena)
    requires i < |rots|
    ensures var rotation := rots[i];
      var needsRotation := rotation != piece.rotation;
      var prev := movesIn + MovesToTarget(piece, grid, arena, target, steps, rots[..i]);
      movesIn + MovesToTarget(piece, grid, arena, target, steps, rots[..i + 1]) ==
        if needsRotation && steps > RotateMoveLimit then prev
        else if ValidateMove(piece, target, grid, arena, Some(rotation)) == Valid then
          prev + [Move(piece.id, piece.position, target, steps, needsRotation, Some(rotation), true)]
        else prev
  {
    assert rots[..i + 1][..i] == rots[..i];
    var rotation := rots[i];
    AppendAssoc(movesIn, MovesToTarget(piece, grid, arena, target, steps, rots[..i]),
                [Move(piece.id, piece.position, target, steps, rotation != piece.rotation, Some(rotation), true)]);
  }

  /** The steps loop of getPossibleMoves for one direction, appending to `movesIn`. */
  method CollectMovesInDirection(piece: ChessPiece, grid: Grid, arena: Arena, from: Position,
                                 direction: Direction, rotations: seq<Rotation>, movesIn: seq<Move>)
    returns (moves: seq<Move>)
    requires IsValidShapeId(piece.shapeId) && WellFormed(grid, arena)
    ensures moves == movesIn + MovesInDirection(piece, grid, arena, from, direction, rotations, MaxMoveSteps)
  {
    moves := movesIn;
    var steps := MinMoveSteps;
    while steps <= MaxMoveSteps
      invariant MinMoveSteps <= steps <= MaxMoveSteps + 1
      invariant moves == movesIn + MovesInDirection(piece, grid, arena, from, direction, rotations, steps - 1)
    {
      MovesInDirectionStep(piece, grid, arena, from, direction, rotations, steps, movesIn);
      var targetPos := GetPositionInDirection(from, direction, steps);
      if IsValidPosition(targetPos, |grid|) {
        moves := CollectMovesToTarget(piece, grid, arena, targetPos, steps, rotations, moves);
      }
      steps := steps + 1;
    }
  }

  /** One more step count of the middle loop, after the moves collected so far. */
  lemma MovesInDirectionStep(piece: ChessPiece, grid: Grid, arena: Arena, from: Position, direction: Direction,
                             rots: seq<Rotation>, steps: int, movesIn: seq<Move>)
    requires IsValidShapeId(piece.shapeId) && WellFormed(grid, arena)
    requires steps >= MinMoveSteps
    ensures var target := GetPositionInDirection(from, direction, steps);
      var prev := movesIn + MovesInDirection(piece, grid, arena, from, direction, rots, steps - 1);
      movesIn + MovesInDirection(piece, grid, arena, from, direction, rots, steps) ==
        if IsValidPosition(target, |grid|) then prev + MovesToTarget(piece, grid, arena, target, steps, rots)
        else prev
  {
    var target := GetPositionInDirection(from, direction, steps);
    AppendAssoc(movesIn, MovesInDirection(piece, grid, arena, from, direction, rots, steps - 1),
                MovesToTarget(piece, grid, arena, target, steps, rots));
  }

  /** getPossibleMoves */
  method GetPossibleMoves(piece: ChessPiece, grid: Grid, arena: Arena, includeRotations: bool)
    returns (possibleMoves: seq<Move>)
    requires IsValidShapeId(piece.shapeId) && WellFormed(grid, arena)
    ensures possibleMoves == PossibleMoves(piece, grid, arena, includeRotations)
  {
    if !piece.isOnBoard || piece.position.None? {
      return [];
    }
    var from := piece.position.value;
    possibleMoves := [];
    var directions := AllDirections;
    var rotations := if includeRotations then AllRotations else [piece.rotation];
    var i := 0;
    while i < |directions|
      invariant 0 <= i <= |directions|
      invariant possibleMoves == MovesAlong(piece, grid, arena, from, rotations, directions[..i])
    {
      assert directions[..i + 1][..i] == directions[..i];
      possibleMoves := CollectMovesInDirection(piece, grid, arena, from, directions[i], rotations, possibleMoves);
      i := i + 1;
    }
    assert directions[..i] == directions;
  }

  // ---------------------------------------------------------------- what getPossibleMoves yields

  /** Each move to one target is an accepted move of this piece with a tried rotation. */
  lemma {:induction false} MovesToTargetSound(piece: ChessPiece, grid: Grid, arena: Arena, target: Position,
                                              steps: int, rots: seq<Rotation>, m: Move)
    requires IsValidShapeId(piece.shapeId) && WellFormed(grid, arena)
    requires m in MovesToTarget(piece, grid, arena, target, steps, rots)
    ensures m.pieceId == piece.id && m.from == piece.position && m.to == target && m.steps == steps && m.canFit
    ensures m.newRotation.Some? && m.newRotation.value in rots
    ensures m.needRotation == (m.newRotation.value != piece.rotation)
    ensures m.needRotation ==> steps <= RotateMoveLimit
    ensures ValidateMove(piece, target, grid, arena, m.newRotation) == Valid
    decreases |rots|
  {
    var p := rots[..|rots| - 1];
    if m in MovesToTarget(piece, grid, arena, target, steps, p) {
      MovesToTargetSound(piece, grid, arena, target, steps, p, m);
      assert forall x :: x in p ==> x in rots;
    }
  }

  /** Each tried rotation that the limit lets through and validateMove accepts gives a move. */
  lemma {:induction false} MovesToTargetComplete(piece: ChessPiece, grid: Grid, arena: Arena, target: Position,
                                                 steps: int, rots: seq<Rotation>, r: Rotation)
    requires IsValidShapeId(piece.shapeId) && WellFormed(grid, arena)
    requires r in rots && !(r != piece.rotation && steps > RotateMoveLimit)
    requires ValidateMove(piece, target, grid, arena, Some(r)) == Valid
    ensures Move(piece.id, piece.position, target, steps, r != piece.rotation, Some(r), true) in
      MovesToTarget(piece, grid, arena, target, steps, rots)
    decreases |rots|
  {
    var p := rots[..|rots| - 1];
    assert rots == p + [rots[|rots| - 1]];
    if r != rots[|rots| - 1] {
      MovesToTargetComplete(piece, grid, arena, target, steps, p, r);
    }
  }

  /**
   * At most one move per tried rotation; beyond the rotation limit only the current rotation
   * can give a move, so with distinct rotations there is at most one.
   */
  lemma {:induction false} MovesToTargetBound(piece: ChessPiece, grid: Grid, arena: Arena, target: Position,
                                              steps: int, rots: seq<Rotation>)
    requires IsValidShapeId(piece.shapeId) && WellFormed(grid, arena)
    ensures |MovesToTarget(piece, grid, arena, target, steps, rots)| <= |rots|
    ensures steps > RotateMoveLimit && piece.rotation !in rots ==>
      MovesToTarget(piece, grid, arena, target, steps, rots) == []
    ensures steps > RotateMoveLimit && NoDuplicates(rots) ==>
      |MovesToTarget(piece, grid, arena, target, steps, rots)| <= 1
    decreases |rots|
  {
    if rots != [] {
      var p := rots[..|rots| - 1];
      var last := rots[|rots| - 1];
      assert rots == p + [last];
      MovesToTargetBound(piece, grid, arena, target, steps, p);
    }
  }

  /** Each move along a direction goes 1 to n steps that way to an in-bounds target. */
  lemma {:induction false} MovesInDirectionSound(piece: ChessPiece, grid: Grid, arena: Arena, from: Position,
                                                 direction: Direction, rots: seq<Rotation>, n: int, m: Move)
    requires IsValidShapeId(piece.shapeId) && WellFormed(grid, arena)
    requires m in MovesInDirection(piece, grid, arena, from, direction, rots, n)
    ensures MinMoveSteps <= m.steps <= n
    ensures m.to == GetPositionInDirection(from, direction, m.steps) && IsValidPosition(m.to, |grid|)
    ensures m in MovesToTarget(piece, grid, arena, m.to, m.steps, rots)
    decreases n
  {
    var target := GetPositionInDirection(from, direction, n);
    if m in MovesInDirection(piece, grid, arena, from, direction, rots, n - 1) {
      MovesInDirectionSound(piece, grid, arena, from, direction, rots, n - 1, m);
    } else {
      MovesToTargetSound(piece, grid, arena, target, n, rots, m);
    }
  }

  /** The moves to an in-bounds target k steps along the direction, 1 <= k <= n, are all there. */
  lemma {:induction false} MovesInDirectionComplete(piece: ChessPiece, grid: Grid, arena: Arena, from: Position,
                                                    direction: Direction, rots: seq<Rotation>, n: int, k: int, m: Move)
    requires IsValidShapeId(piece.shapeId) && WellFormed(grid, arena)
    requires MinMoveSteps <= k <= n
    requires IsValidPosition(GetPositionInDirection(from, direction, k), |grid|)
    requires m in MovesToTarget(piece, grid, arena, GetPositionInDirection(from, direction, k), k, rots)
    ensures m in MovesInDirection(piece, grid, arena, from, direction, rots, n)
    decreases n
  {
    if k < n {
      MovesInDirectionComplete(piece, grid, arena, from, direction, rots, n - 1, k, m);
    }
  }

  /** With distinct rotations: all of them at the first step, at most one per further step. */
  lemma {:induction false} MovesInDirectionBound(piece: ChessPiece, grid: Grid, arena: Arena, from: Position,
                                                 direction: Direction, rots: seq<Rotation>, n: int)
    requires IsValidShapeId(piece.shapeId) && WellFormed(grid, arena)
    requires NoDuplicates(rots)
    ensures |MovesInDirection(piece, grid, arena, from, direction, rots, n)| <=
      if n < MinMoveSteps then 0 else |rots| + n - MinMoveSteps
    decreases n
  {
    if n >= MinMoveSteps {
      MovesInDirectionBound(piece, grid, arena, from, direction, rots, n - 1);
      MovesToTargetBound(piece, grid, arena, GetPositionInDirection(from, direction, n), n, rots);
    }
  }

  /** Each move of the outer loop comes from one of the directions. */
  lemma {:induction false} MovesAlongSound(piece: ChessPiece, grid: Grid, arena: Arena, from: Position,
                                           rots: seq<Rotation>, dirs: seq<Direction>, m: Move)
    requires IsValidShapeId(piece.shapeId) && WellFormed(grid, arena)
    requires m in MovesAlong(piece, grid, arena, from, rots, dirs)
    ensures exists d :: d in dirs && m in MovesInDirection(piece, grid, arena, from, d, rots, MaxMoveSteps)
    decreases |dirs|
  {
    var p := dirs[..|dirs| - 1];
    var last := dirs[|dirs| - 1];
    assert dirs == p + [last];
    if m in MovesAlong(piece, grid, arena, from, rots, p) {
      MovesAlongSound(piece, grid, arena, from, rots, p, m);
      var d :| d in p && m in MovesInDirection(piece, grid, arena, from, d, rots, MaxMoveSteps);
      assert d in dirs;
    } else {
      assert m in MovesInDirection(piece, grid, arena, from, last, rots, MaxMoveSteps);
    }
  }

  /** The moves along any of the directions are in the outer loop's result. */
  lemma {:induction false} MovesAlongComplete(piece: ChessPiece, grid: Grid, arena: Arena, from: Position,
                                              rots: seq<Rotation>, dirs: seq<Direction>, d: Direction, m: Move)
    requires IsValidShapeId(piece.shapeId) && WellFormed(grid, arena)
    requires d in dirs && m in MovesInDirection(piece, grid, arena, from, d, rots, MaxMoveSteps)
    ensures m in MovesAlong(piece, grid, arena, from, rots, dirs)
    decreases |dirs|
  {
    var p := dirs[..|dirs| - 1];
    var last := dirs[|dirs| - 1];
    assert dirs == p + [last];
    if d != last {
      MovesAlongComplete(piece, grid, arena, from, rots, p, d, m);
    }
  }

  lemma MulSucc(a: nat, n: nat)
    ensures (a + 1) * n == a * n + n
  {
  }

  /** The outer loop yields at most |rots| + 2 moves per direction. */
  lemma {:induction false} MovesAlongBound(piece: ChessPiece, grid: Grid, arena: Arena, from: Position,
                                           rots: seq<Rotation>, dirs: seq<Direction>)
    requires IsValidShapeId(piece.shapeId) && WellFormed(grid, arena)
    requires NoDuplicates(rots)
    ensures |MovesAlong(piece, grid, arena, from, rots, dirs)| <= |dirs| * (|rots| + 2)
    decreases |dirs|
  {
    if dirs != [] {
      var p := dirs[..|dirs| - 1];
      var width := |rots| + 2;
      MovesAlongBound(piece, grid, arena, from, rots, p);
      MovesInDirectionBound(piece, grid, arena, from, dirs[|dirs| - 1], rots, MaxMoveSteps);
      var before := |MovesAlong(piece, grid, arena, from, rots, p)|;
      var added := |MovesInDirection(piece, grid, arena, from, dirs[|dirs| - 1], rots, MaxMoveSteps)|;
      assert |MovesAlong(piece, grid, arena, from, rots, dirs)| == before + added;
      MulSucc(|p|, width);
    }
  }

  /**
   * Every generated move is accepted by validateMove with its own rotation, starts where the
   * piece is, goes 1 to 3 cells in a straight line or diagonal to an in-bounds target (1 if it
   * turns), and uses a tried rotation.
   */
  lemma PossibleMovesSound(piece: ChessPiece, grid: Grid, arena: Arena, includeRotations: bool, m: Move)
    requires IsValidShapeId(piece.shapeId) && WellFormed(grid, arena)
    requires m in PossibleMoves(piece, grid, arena, includeRotations)
    ensures piece.isOnBoard && piece.position.Some?
    ensures m.pieceId == piece.id && m.from == piece.position && m.canFit
    ensures ValidateMove(piece, m.to, grid, arena, m.newRotation) == Valid
    ensures IsValidPosition(m.to, |grid|) && Aligned(piece.position.value, m.to)
    ensures MinMoveSteps <= m.steps <= MaxMoveSteps
    ensures m.steps == CalculateChebyshevDistance(piece.position.value, m.to)
    ensures m.newRotation.Some? && m.newRotation.value in CandidateRotations(piece, includeRotations)
    ensures m.needRotation == (m.newRotation.value != piece.rotation)
    ensures m.needRotation ==> m.steps == RotateMoveLimit
  {
    var from := piece.position.value;
    var rots := CandidateRotations(piece, includeRotations);
    MovesAlongSound(piece, grid, arena, from, rots, AllDirections, m);
    var d :| d in AllDirections && m in MovesInDirection(piece, grid, arena, from, d, rots, MaxMoveSteps);
    MovesInDirectionSound(piece, grid, arena, from, d, rots, MaxMoveSteps, m);
    MovesToTargetSound(piece, grid, arena, m.to, m.steps, rots, m);
    PositionInDirectionSpec(from, d, m.steps);
  }

  /**
   * Conversely, a target 1 to 3 steps along a direction that validateMove accepts with a tried
   * rotation gives a move. (Targets off the eight rays and in-place turns are never tried.)
   */
  lemma PossibleMovesComplete(piece: ChessPiece, grid: Grid, arena: Arena, includeRotations: bool,
                              d: Direction, k: int, r: Rotation)
    requires IsValidShapeId(piece.shapeId) && WellFormed(grid, arena)
    requires piece.isOnBoard && piece.position.Some?
    requires MinMoveSteps <= k <= MaxMoveSteps && r in CandidateRotations(piece, includeRotations)
    requires ValidateMove(piece, GetPositionInDirection(piece.position.value, d, k), grid, arena, Some(r)) == Valid
    ensures Move(piece.id, piece.position, GetPositionInDirection(piece.position.value, d, k), k,
                 r != piece.rotation, Some(r), true) in PossibleMoves(piece, grid, arena, includeRotations)
  {
    var from := piece.position.value;
    var target := GetPositionInDirection(from, d, k);
    var rots := CandidateRotations(piece, includeRotations);
    PositionInDirectionSpec(from, d, k);
    ValidateMoveAccepts(piece, target, grid, arena, Some(r));
    MovesToTargetComplete(piece, grid, arena, target, k, rots, r);
    var m := Move(piece.id, piece.position, target, k, r != piece.rotation, Some(r), true);
    MovesInDirectionComplete(piece, grid, arena, from, d, rots, MaxMoveSteps, k, m);
    InAllDirections(d);
    MovesAlongComplete(piece, grid, arena, from, rots, AllDirections, d, m);
  }

  /**
   * No moves for a piece off the board; at most 48 moves (8 directions, each with its 4
   * rotations at one step and the current one at two and three steps), and 24 when only the
   * current rotation is tried, which every move then keeps.
   */
  lemma PossibleMovesBound(piece: ChessPiece, grid: Grid, arena: Arena, includeRotations: bool)
    requires IsValidShapeId(piece.shapeId) && WellFormed(grid, arena)
    ensures !piece.isOnBoard || piece.position.None? ==> PossibleMoves(piece, grid, arena, includeRotations) == []
    ensures |PossibleMoves(piece, grid, arena, includeRotations)| <= 48
    ensures !includeRotations ==> |PossibleMoves(piece, grid, arena, includeRotations)| <= 24
    ensures !includeRotations ==> forall m :: m in PossibleMoves(piece, grid, arena, includeRotations) ==>
      m.newRotation == Some(piece.rotation) && !m.needRotation
  {
    if piece.isOnBoard && piece.position.Some? {
      var rots := CandidateRotations(piece, includeRotations);
      AllRotationsIncreasing();
      DirectionVectorsTable();
      MovesAlongBound(piece, grid, arena, piece.position.value, rots, AllDirections);
      forall m | m in PossibleMoves(piece, grid, arena, includeRotations)
        ensures !includeRotations ==> m.newRotation == Some(piece.rotation) && !m.needRotation
      {
        PossibleMovesSound(piece, grid, arena, includeRotations, m);
      }
    }
  }

  // ---------------------------------------------------------------- derived queries

  /** The targets of the moves, in order. */
  function Destinations(moves: seq<Move>): seq<Position>
    decreases |moves|
  {
    if moves == [] then [] else Destinations(moves[..|moves| - 1]) + [moves[|moves| - 1].to]
  }

  lemma {:induction false} DestinationsSpec(moves: seq<Move>)
    ensures |Destinations(moves)| == |moves|
    ensures forall k :: 0 <= k < |moves| ==> Destinations(moves)[k] == moves[k].to
    decreases |moves|
  {
    if moves != [] {
      DestinationsSpec(moves[..|moves| - 1]);
    }
  }

  lemma DestinationsStep(moves: seq<Move>, i: nat)
    requires i < |moves|
    ensures Destinations(moves[..i + 1]) == Destinations(moves[..i]) + [moves[i].to]
  {
    assert moves[..i + 1][..i] == moves[..i];
  }

  /** What getPossiblePositions returns: the first-seen distinct targets of all moves. */
  function PossiblePositions(piece: ChessPiece, grid: Grid, arena: Arena): seq<Position>
    requires IsValidShapeId(piece.shapeId) && WellFormed(grid, arena)
  {
    Dedupe(Destinations(PossibleMoves(piece, grid, arena, true)))
  }

  /**
   * getPossiblePositions. The Map from "row,col" keys to positions is its key set `seen` and
   * its values in insertion order, the order `Array.from(map.values())` yields.
   */
  method GetPossiblePositions(piece: ChessPiece, grid: Grid, arena: Arena) returns (positions: seq<Position>)
    requires IsValidShapeId(piece.shapeId) && WellFormed(grid, arena)
    ensures positions == PossiblePositions(piece, grid, arena)
  {
    var moves := GetPossibleMoves(piece, grid, arena, true);
    var seen: set<Position> := {};
    positions := [];
    for i := 0 to |moves|
      invariant positions == Dedupe(Destinations(moves[..i]))
      invariant forall p :: p in seen <==> p in positions
    {
      DestinationsStep(moves, i);
      DedupeSnoc(Destinations(moves[..i]), moves[i].to);
      var key := moves[i].to;
      if key !in seen {
        seen := seen + {key};
        positions := positions + [moves[i].to];
      }
    }
    assert moves[..|moves|] == moves;
  }

  /** The positions are distinct, are exactly the move targets, and come in first-seen order. */
  lemma PossiblePositionsSpec(piece: ChessPiece, grid: Grid, arena: Arena)
    requires IsValidShapeId(piece.shapeId) && WellFormed(grid, arena)
    ensures var moves := PossibleMoves(piece, grid, arena, true);
      var r := PossiblePositions(piece, grid, arena);
      NoDuplicates(r) && |r| <= |moves| &&
      (forall p :: p in r <==> exists m :: m in moves && m.to == p) &&
      forall i, j :: 0 <= i < j < |r| ==> IndexOf(Destinations(moves), r[i]) < IndexOf(Destinations(moves), r[j])
  {
    var moves := PossibleMoves(piece, grid, arena, true);
    var ds := Destinations(moves);
    DedupeSpec(ds);
    DestinationsSpec(moves);
    forall p ensures p in ds <==> exists m :: m in moves && m.to == p {
      if p in ds {
        var k :| 0 <= k < |ds| && ds[k] == p;
        assert moves[k] in moves;
      }
    }
    forall i, j | 0 <= i < j < |Dedupe(ds)| ensures IndexOf(ds, Dedupe(ds)[i]) < IndexOf(ds, Dedupe(ds)[j]) {
      DedupeFirstSeenOrder(ds, i, j);
    }
  }

  /** canPieceMove: whether getPossibleMoves, tried with every rotation, is non-empty. */
  method CanPieceMove(piece: ChessPiece, grid: Grid, arena: Arena) returns (canMove: bool)
    requires IsValidShapeId(piece.shapeId) && WellFormed(grid, arena)
    ensures canMove <==> PossibleMoves(piece, grid, arena, true) != []
  {
    var moves := GetPossibleMoves(piece, grid, arena, true);
    canMove := |moves| > 0;
  }

  /**
   * A piece can move exactly when it is on the board and validateMove accepts some target
   * 1 to 3 steps along one of the eight directions with some rotation.
   */
  lemma CanMoveIff(piece: ChessPiece, grid: Grid, arena: Arena)
    requires IsValidShapeId(piece.shapeId) && WellFormed(grid, arena)
    ensures PossibleMoves(piece, grid, arena, true) != [] <==>
      piece.isOnBoard && piece.position.Some? &&
      exists d: Direction, k: int, r: Rotation :: MinMoveSteps <= k <= MaxMoveSteps &&
        ValidateMove(piece, GetPositionInDirection(piece.position.value, d, k), grid, arena, Some(r)) == Valid
  {
    var moves := PossibleMoves(piece, grid, arena, true);
    if moves != [] {
      var m := moves[0];
      PossibleMovesSound(piece, grid, arena, true, m);
      var from := piece.position.value;
      GetDirectionAligned(from, m.to);
      var d := GetDirection(from, m.to).value;
      assert GetPositionInDirection(from, d, m.steps) == m.to;
    } else if piece.isOnBoard && piece.position.Some? {
      forall d: Direction, k: int, r: Rotation | MinMoveSteps <= k <= MaxMoveSteps
        ensures ValidateMove(piece, GetPositionInDirection(piece.position.value, d, k), grid, arena, Some(r)) != Valid
      {
        if ValidateMove(piece, GetPositionInDirection(piece.position.value, d, k), grid, arena, Some(r)) == Valid {
          AllRotationsContain(r);
          PossibleMovesComplete(piece, grid, arena, true, d, k, r);
        }
      }
    }
  }

  lemma AllRotationsContain(r: Rotation)
    ensures r in AllRotations
  {
    assert r == AllRotations[r / 90];
  }

  // ---------------------------------------------------------------- getBestMove

  /**
   * `Math.min(...goalRows.map(g => Math.abs(row - g)))`: the distance to the nearest goal row;
   * None is the Infinity that Math.min returns for no goal rows.
   */
  function GoalDistance(row: int, goalRows: seq<int>): Option<nat>
    decreases |goalRows|
  {
    if goalRows == [] then None
    else
      var rest := GoalDistance(row, goalRows[..|goalRows| - 1]);
      var d := Abs(row - goalRows[|goalRows| - 1]);
      if rest.Some? && rest.value <= d then rest else Some(d)
  }

  /** The nearest goal row's distance is attained by a goal row and is at most every other. */
  lemma {:induction false} GoalDistanceSpec(row: int, goalRows: seq<int>)
    ensures GoalDistance(row, goalRows).None? <==> goalRows == []
    ensures GoalDistance(row, goalRows).Some? ==>
      (exists g :: g in goalRows && GoalDistance(row, goalRows).value == Abs(row - g)) &&
      forall g :: g in goalRows ==> GoalDistance(row, goalRows).value <= Abs(row - g)
    decreases |goalRows|
  {
    if goalRows != [] {
      var p := goalRows[..|goalRows| - 1];
      var last := goalRows[|goalRows| - 1];
      assert goalRows == p + [last];
      GoalDistanceSpec(row, p);
      var rest := GoalDistance(row, p);
      if rest.Some? && rest.value <= Abs(row - last) {
        var g :| g in p && rest.value == Abs(row - g);
        assert g in goalRows;
      } else {
        assert last in goalRows;
      }
    }
  }

  /** `distance < bestDistance` on numbers that may be Infinity. */
  predicate Closer(a: Option<nat>, b: Option<nat>) {
    a.Some? && (b.None? || a.value < b.value)
  }

  /** The move whose target is nearest a goal row, the earliest on ties. */
  function BestOf(moves: seq<Move>, goalRows: seq<int>): Move
    requires moves != []
    decreases |moves|
  {
    if |moves| == 1 then moves[0]
    else
      var best := BestOf(moves[..|moves| - 1], goalRows);
      var last := moves[|moves| - 1];
      if Closer(GoalDistance(last.to.row, goalRows), GoalDistance(best.to.row, goalRows)) then last else best
  }

  /** What getBestMove returns. */
  function BestMove(piece: ChessPiece, grid: Grid, arena: Arena, goalRows: seq<int>): Option<Move>
    requires IsValidShapeId(piece.shapeId) && WellFormed(grid, arena)
  {
    var moves := PossibleMoves(piece, grid, arena, true);
    if moves == [] then None else Some(BestOf(moves, goalRows))
  }

  /** getBestMove */
  method GetBestMove(piece: ChessPiece, grid: Grid, arena: Arena, goalRows: seq<int>) returns (bestMove: Option<Move>)
    requires IsValidShapeId(piece.shapeId) && WellFormed(grid, arena)
    ensures bestMove == BestMove(piece, grid, arena, goalRows)
  {
    var moves := GetPossibleMoves(piece, grid, arena, true);
    if |moves| == 0 {
      return None;
    }
    var best := NearestMove(moves, goalRows);
    bestMove := Some(best);
  }

  /** The loop of getBestMove over the moves, keeping the first strictly nearer one. */
  method NearestMove(moves: seq<Move>, goalRows: seq<int>) returns (best: Move)
    requires moves != []
    ensures best == BestOf(moves, goalRows)
  {
    best := moves[0];
    var bestDistance := GoalDistance(best.to.row, goalRows);
    for i := 0 to |moves|
      invariant best == BestOf(moves[..if i == 0 then 1 else i], goalRows)
      invariant bestDistance == GoalDistance(best.to.row, goalRows)
    {
      BestOfStep(moves, goalRows, i);
      var move := moves[i];
      var distance := GoalDistance(move.to.row, goalRows);
      if Closer(distance, bestDistance) {
        bestDistance := distance;
        best := move;
      }
    }
    assert moves[..|moves|] == moves;
  }

  /** One more pass of getBestMove's loop; the first pass compares moves[0] with itself. */
  lemma BestOfStep(moves: seq<Move>, goalRows: seq<int>, i: nat)
    requires i < |moves|
    ensures var best := BestOf(moves[..if i == 0 then 1 else i], goalRows);
      BestOf(moves[..i + 1], goalRows) ==
        if Closer(GoalDistance(moves[i].to.row, goalRows), GoalDistance(best.to.row, goalRows)) then moves[i] else best
  {
    if i > 0 {
      assert moves[..i + 1][..i] == moves[..i];
    }
  }

  /** No move is nearer a goal row than the chosen one. */
  lemma {:induction false} BestOfMinimal(moves: seq<Move>, goalRows: seq<int>)
    requires moves != []
    ensures forall k :: 0 <= k < |moves| ==>
      !Closer(GoalDistance(moves[k].to.row, goalRows), GoalDistance(BestOf(moves, goalRows).to.row, goalRows))
    decreases |moves|
  {
    if |moves| > 1 {
      var p := moves[..|moves| - 1];
      BestOfMinimal(p, goalRows);
      var best := BestOf(moves, goalRows);
      forall k | 0 <= k < |moves|
        ensures !Closer(GoalDistance(moves[k].to.row, goalRows), GoalDistance(best.to.row, goalRows))
      {
        if k < |moves| - 1 {
          assert moves[k] == p[k];
        }
      }
    }
  }

  /**
   * The chosen move is one of the moves and every move before it is farther: with
   * BestOfMinimal, it is the first nearest move. With no goal rows it is the first move.
   */
  lemma {:induction false} BestOfFirst(moves: seq<Move>, goalRows: seq<int>)
    requires moves != []
    ensures var best := BestOf(moves, goalRows);
      exists i :: 0 <= i < |moves| && moves[i] == best && FirstNearest(moves, goalRows, i)
    ensures goalRows == [] ==> BestOf(moves, goalRows) == moves[0]
    decreases |moves|
  {
    if |moves| == 1 {
      assert FirstNearest(moves, goalRows, 0);
    } else {
      var p := moves[..|moves| - 1];
      var last := moves[|moves| - 1];
      BestOfFirst(p, goalRows);
      var b := BestOf(p, goalRows);
      var i :| 0 <= i < |p| && p[i] == b && FirstNearest(p, goalRows, i);
      if Closer(GoalDistance(last.to.row, goalRows), GoalDistance(b.to.row, goalRows)) {
        BestOfMinimal(p, goalRows);
        assert FirstNearest(moves, goalRows, |moves| - 1) by {
          forall k | 0 <= k < |moves| - 1
            ensures Closer(GoalDistance(last.to.row, goalRows), GoalDistance(moves[k].to.row, goalRows))
          {
            assert moves[k] == p[k];
          }
        }
      } else {
        assert moves[i] == b;
        assert FirstNearest(moves, goalRows, i) by {
          forall k | 0 <= k < i
            ensures Closer(GoalDistance(b.to.row, goalRows), GoalDistance(moves[k].to.row, goalRows))
          {
            assert moves[k] == p[k];
          }
        }
      }
    }
  }

  /** Every move before index i is farther from the goal rows than moves[i]. */
  predicate FirstNearest(moves: seq<Move>, goalRows: seq<int>, i: int)
    requires 0 <= i < |moves|
  {
    forall k :: 0 <= k < i ==>
      Closer(GoalDistance(moves[i].to.row, goalRows), GoalDistance(moves[k].to.row, goalRows))
  }

}
