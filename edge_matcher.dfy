/**
 * Edge matching (src/classes/chess/EdgeMatcher.ts): which edge a rotated piece shows on a
 * side, whether a piece fits next to the pieces stacked around a position, which rotations
 * fit, and whether two adjacent cells hold a matching pair.
 *
 * The board is given as its grid of cells; the cells hold piece ids and the pieces
 * themselves are looked up in an id-keyed map.
 */
module EdgeMatcher {
  import opened Util
  import opened ChessTypes
  import opened Pieces

  /** The cells of a board, row by row. */
  type Grid = seq<seq<BoardCell>>

  /** The piece records the cells refer to, by id. */
  type Arena = map<PieceId, ChessPiece>

  // ---------------------------------------------------------------- edges and sides

  /** canMatch: `b` is the partner of `a`. */
  predicate CanMatch(edge1: EdgeType, edge2: EdgeType) {
    EdgeMatch(edge1) == edge2
  }

  /** The side order used by getRotatedEdge. */
  const Sides: seq<EdgeSide> := [Top, EdgeSide.Right, Bottom, EdgeSide.Left]

  /** `sides.indexOf(side)` */
  function SideIndex(side: EdgeSide): (i: nat)
    ensures i < |Sides|
  {
    match side
    case Top => 0
    case Right => 1
    case Bottom => 2
    case Left => 3
  }

  /** The side of the unrotated piece that ends up on `side` after turning by `rotation`. */
  function OriginalSide(side: EdgeSide, rotation: Rotation): EdgeSide {
    var rotationSteps := rotation / 90;
    var originalSideIndex := (SideIndex(side) - rotationSteps + 4) % 4;
    Sides[originalSideIndex]
  }

  /** getRotatedEdge */
  function GetRotatedEdge(edges: Edges, side: EdgeSide, rotation: Rotation): EdgeType {
    EdgeOn(edges, OriginalSide(side, rotation))
  }

  /**
   * The turning table of the getRotatedEdge documentation, read backwards: the stored side
   * whose edge shows on `side` after a clockwise turn. At 90 degrees top goes to right, right
   * to bottom, bottom to left and left to top; 180 degrees swaps opposite sides; at 270
   * degrees top goes to left, right to top, bottom to right and left to bottom.
   */
  function TurnedFrom(side: EdgeSide, rotation: Rotation): EdgeSide {
    if rotation == 0 then side
    else if rotation == 90 then
      match side
      case Right => Top
      case Bottom => EdgeSide.Right
      case Left => Bottom
      case Top => EdgeSide.Left
    else if rotation == 180 then
      match side
      case Bottom => Top
      case Left => EdgeSide.Right
      case Top => Bottom
      case Right => EdgeSide.Left
    else
      match side
      case Left => Top
      case Top => EdgeSide.Right
      case Right => Bottom
      case Bottom => EdgeSide.Left
  }

  /** The index arithmetic of getRotatedEdge implements the turning table. */
  lemma OriginalSideIsTurn(side: EdgeSide, rotation: Rotation)
    ensures OriginalSide(side, rotation) == TurnedFrom(side, rotation)
    ensures forall edges :: GetRotatedEdge(edges, side, rotation) == EdgeOn(edges, TurnedFrom(side, rotation))
  {
    var i: int := SideIndex(side);
    if rotation == 0 {
      assert (i - 0 + 4) % 4 == i;
    } else if rotation == 90 {
      assert (i - 1 + 4) % 4 == if i == 0 then 3 else i - 1;
    } else if rotation == 180 {
      assert (i - 2 + 4) % 4 == if i < 2 then i + 2 else i - 2;
    } else {
      assert (i - 3 + 4) % 4 == if i == 3 then 0 else i + 1;
    }
  }

  /**
   * Rotation 0 shows the stored edge, and over the four rotations a fixed side shows the
   * four stored sides, each exactly once.
   */
  lemma RotationsShowEachSideOnce(edges: Edges, side: EdgeSide)
    ensures GetRotatedEdge(edges, side, 0) == EdgeOn(edges, side)
    ensures var a, b, c, d := OriginalSide(side, 0), OriginalSide(side, 90), OriginalSide(side, 180), OriginalSide(side, 270);
      a != b && a != c && a != d && b != c && b != d && c != d
  {
    OriginalSideIsTurn(side, 0);
    OriginalSideIsTurn(side, 90);
    OriginalSideIsTurn(side, 180);
    OriginalSideIsTurn(side, 270);
  }

  /** getOppositeSide */
  function GetOppositeSide(side: EdgeSide): EdgeSide {
    match side
    case Top => Bottom
    case Bottom => Top
    case Left => EdgeSide.Right
    case Right => EdgeSide.Left
  }

  /** getOppositeSide is an involution without fixed points, half a turn away. */
  lemma OppositeSideInvolution(side: EdgeSide)
    ensures GetOppositeSide(GetOppositeSide(side)) == side
    ensures GetOppositeSide(side) != side
    ensures forall edges :: GetRotatedEdge(edges, GetOppositeSide(side), 180) == EdgeOn(edges, side)
  {
    forall edges ensures GetRotatedEdge(edges, GetOppositeSide(side), 180) == EdgeOn(edges, side) {
      OriginalSideIsTurn(GetOppositeSide(side), 180);
    }
  }

  /** getNeighborPosition, with the method's own vector table. */
  function NeighborPosition(position: Position, direction: Direction): Position {
    match direction
    case Up => Position(position.row - 1, position.col)
    case Down => Position(position.row + 1, position.col)
    case Left => Position(position.row, position.col - 1)
    case Right => Position(position.row, position.col + 1)
    case UpLeft => Position(position.row - 1, position.col - 1)
    case UpRight => Position(position.row - 1, position.col + 1)
    case DownLeft => Position(position.row + 1, position.col - 1)
    case DownRight => Position(position.row + 1, position.col + 1)
  }

  /** The cell across a side: top is the row above, right the next column. */
  function AcrossSide(position: Position, side: EdgeSide): Position {
    match side
    case Top => Position(position.row - 1, position.col)
    case Right => Position(position.row, position.col + 1)
    case Bottom => Position(position.row + 1, position.col)
    case Left => Position(position.row, position.col - 1)
  }

  /** The local table of getNeighborPosition agrees with DIRECTION_VECTORS. */
  lemma NeighborIsVectorStep(position: Position, direction: Direction)
    ensures NeighborPosition(position, direction) ==
      Position(position.row + VectorOf(direction).row, position.col + VectorOf(direction).col)
  {
  }

  /**
   * DIRECTION_TO_EDGE: `to` is the side opposite `from`; for an orthogonal direction `from`
   * is the side that faces the neighbour in that direction; a diagonal uses the vertical pair
   * of its row component.
   */
  lemma DirectionToEdgeTable(position: Position, d: Direction)
    ensures DirectionToEdge(d).to == GetOppositeSide(DirectionToEdge(d).from)
    ensures IsOrthogonal(d) ==> AcrossSide(position, DirectionToEdge(d).from) == NeighborPosition(position, d)
    ensures !IsOrthogonal(d) ==>
      DirectionToEdge(d) == (if VectorOf(d).row < 0 then EdgePair(Top, Bottom) else EdgePair(Bottom, Top))
  {
  }

  // ---------------------------------------------------------------- the board as checkFit sees it

  /** The bounds test of checkFit: rows of the grid, columns of its first row. */
  predicate InFitBounds(grid: Grid, p: Position) {
    0 <= p.row < |grid| && 0 <= p.col < (if |grid| > 0 then |grid[0]| else 0)
  }

  /** The grid has a cell at p. */
  predicate InGrid(grid: Grid, p: Position) {
    0 <= p.row < |grid| && 0 <= p.col < |grid[p.row]|
  }

  /** `board[row]?.[col]?.pieces`: the stack of a cell, or nothing where there is no cell. */
  function StackAt(grid: Grid, p: Position): seq<PieceId> {
    if InGrid(grid, p) then grid[p.row][p.col].pieces else []
  }

  /** The grid with the stack of one cell replaced. */
  function SetStack(grid: Grid, p: Position, stack: seq<PieceId>): (g: Grid)
    requires InGrid(grid, p)
    ensures |g| == |grid| && forall r :: 0 <= r < |g| ==> |g[r]| == |grid[r]|
    ensures StackAt(g, p) == stack
    ensures forall q :: q != p ==> StackAt(g, q) == StackAt(grid, q)
  {
    grid[p.row := grid[p.row][p.col := grid[p.row][p.col].(pieces := stack)]]
  }

  /** Every id in the stack names a piece with a valid shape. */
  predicate KnownIds(stack: seq<PieceId>, arena: Arena) {
    forall k :: 0 <= k < |stack| ==> stack[k] in arena && IsValidShapeId(arena[stack[k]].shapeId)
  }

  /** Every stacked id names a piece with a valid shape (getPieceShape does not throw). */
  predicate WellFormed(grid: Grid, arena: Arena) {
    forall r, c :: 0 <= r < |grid| && 0 <= c < |grid[r]| ==> KnownIds(grid[r][c].pieces, arena)
  }

  lemma StackAtKnown(grid: Grid, arena: Arena, p: Position)
    requires WellFormed(grid, arena)
    ensures KnownIds(StackAt(grid, p), arena)
  {
  }

  /**
   * The edge a piece of the given shape and rotation shows on a side, read off the turning
   * table (OriginalSideIsTurn: this is what getRotatedEdge computes).
   */
  function ShownEdge(shapeId: int, rotation: Rotation, side: EdgeSide): EdgeType
    requires IsValidShapeId(shapeId)
  {
    EdgeOn(GetPieceShape(shapeId).edges, TurnedFrom(side, rotation))
  }

  /** The edge the piece with this id shows on a side, at its own rotation. */
  function TheirEdge(arena: Arena, id: PieceId, side: EdgeSide): EdgeType
    requires id in arena && IsValidShapeId(arena[id].shapeId)
  {
    ShownEdge(arena[id].shapeId, arena[id].rotation, side)
  }

  // ---------------------------------------------------------------- checkFit

  /** The directions checkFit looks in, in its order. */
  const FitDirections: seq<Direction> := [Direction.Up, Direction.Right, Direction.Down, Direction.Left]

  /** The inner loop of checkFit: the matches against one neighbour stack, bottom to top. */
  function StackMatches(d: Direction, myEdge: EdgeType, stack: seq<PieceId>, arena: Arena): seq<EdgeMatchInfo>
    requires KnownIds(stack, arena)
    decreases |stack|
  {
    if stack == [] then []
    else
      var p := stack[..|stack| - 1];
      assert forall k :: 0 <= k < |p| ==> p[k] == stack[k];
      var prev := StackMatches(d, myEdge, p, arena);
      var id := stack[|stack| - 1];
      var theirEdge := TheirEdge(arena, id, DirectionToEdge(d).to);
      if CanMatch(myEdge, theirEdge) then prev + [EdgeMatchInfo(d, myEdge, theirEdge, id)] else prev
  }

  /** The neighbour in direction d counts for checkFit: in bounds and with a non-empty stack. */
  predicate Consulted(grid: Grid, position: Position, d: Direction) {
    InFitBounds(grid, NeighborPosition(position, d)) && |StackAt(grid, NeighborPosition(position, d))| > 0
  }

  /** The k-th piece of the neighbour stack in direction d shows a partner of the facing edge. */
  predicate FacesMatch(piece: ChessPiece, position: Position, grid: Grid, arena: Arena, rotation: Rotation,
                       d: Direction, k: int)
    requires IsValidShapeId(piece.shapeId) && WellFormed(grid, arena)
  {
    var stack := StackAt(grid, NeighborPosition(position, d));
    StackAtKnown(grid, arena, NeighborPosition(position, d));
    InFitBounds(grid, NeighborPosition(position, d)) && 0 <= k < |stack| &&
    CanMatch(ShownEdge(piece.shapeId, rotation, DirectionToEdge(d).from),
             TheirEdge(arena, stack[k], DirectionToEdge(d).to))
  }

  /** One pass of the outer loop of checkFit. */
  function NeighborMatches(piece: ChessPiece, position: Position, grid: Grid, arena: Arena, rotation: Rotation,
                           d: Direction): seq<EdgeMatchInfo>
    requires IsValidShapeId(piece.shapeId) && WellFormed(grid, arena)
  {
    var np := NeighborPosition(position, d);
    StackAtKnown(grid, arena, np);
    if !Consulted(grid, position, d) then
      []
    else
      StackMatches(d, ShownEdge(piece.shapeId, rotation, DirectionToEdge(d).from), StackAt(grid, np), arena)
  }

  /** The matches of checkFit over the given directions, in order. */
  function MatchesAlong(piece: ChessPiece, position: Position, grid: Grid, arena: Arena, rotation: Rotation,
                        dirs: seq<Direction>): seq<EdgeMatchInfo>
    requires IsValidShapeId(piece.shapeId) && WellFormed(grid, arena)
    decreases |dirs|
  {
    if dirs == [] then []
    else
      MatchesAlong(piece, position, grid, arena, rotation, dirs[..|dirs| - 1]) +
      NeighborMatches(piece, position, grid, arena, rotation, dirs[|dirs| - 1])
  }

  /** The ids of the matched neighbours, one per match. */
  function NeighborIds(edges: seq<EdgeMatchInfo>): seq<PieceId>
    decreases |edges|
  {
    if edges == [] then [] else NeighborIds(edges[..|edges| - 1]) + [edges[|edges| - 1].neighborPiece]
  }

  /** The k-th id is the neighbour of the k-th match. */
  lemma {:induction false} NeighborIdsSpec(edges: seq<EdgeMatchInfo>)
    ensures |NeighborIds(edges)| == |edges|
    ensures forall k :: 0 <= k < |edges| ==> NeighborIds(edges)[k] == edges[k].neighborPiece
    decreases |edges|
  {
    if edges != [] {
      NeighborIdsSpec(edges[..|edges| - 1]);
    }
  }

  /**
   * checkFit: every match between the facing edge of `piece` (at `rotation`, else its own)
   * and a piece stacked in an orthogonal neighbour of `position`, the matched pieces without
   * repetition, and whether there was any match.
   */
  function FitResult(piece: ChessPiece, position: Position, grid: Grid, arena: Arena,
                     rotation: Option<Rotation>): FitCheckResult
    requires IsValidShapeId(piece.shapeId) && WellFormed(grid, arena)
  {
    var testRotation := rotation.GetOr(piece.rotation);
    var edges := MatchesAlong(piece, position, grid, arena, testRotation, FitDirections);
    FitCheckResult(|edges| > 0, Dedupe(NeighborIds(edges)), edges)
  }

  /** The matches against one stack are matching pairs with pieces of that stack, at most one per piece. */
  lemma {:induction false} StackMatchesSound(d: Direction, myEdge: EdgeType, stack: seq<PieceId>, arena: Arena)
    requires KnownIds(stack, arena)
    ensures var r := StackMatches(d, myEdge, stack, arena);
      |r| <= |stack| &&
      forall e :: e in r ==>
        e.direction == d && e.myEdge == myEdge && e.neighborPiece in stack && CanMatch(myEdge, e.theirEdge)
    decreases |stack|
  {
    if stack != [] {
      var p := stack[..|stack| - 1];
      assert forall k :: 0 <= k < |p| ==> p[k] == stack[k];
      StackMatchesSound(d, myEdge, p, arena);
      var prev := StackMatches(d, myEdge, p, arena);
      var r := StackMatches(d, myEdge, stack, arena);
      assert forall e :: e in r ==> e in prev || e.neighborPiece == stack[|stack| - 1];
    }
  }

  /** There is a match against a stack exactly when some piece of it shows a partner of `myEdge`. */
  lemma {:induction false} StackMatchesExist(d: Direction, myEdge: EdgeType, stack: seq<PieceId>, arena: Arena)
    requires KnownIds(stack, arena)
    ensures |StackMatches(d, myEdge, stack, arena)| > 0 <==>
      exists k :: 0 <= k < |stack| && CanMatch(myEdge, TheirEdge(arena, stack[k], DirectionToEdge(d).to))
    decreases |stack|
  {
    if stack != [] {
      var p := stack[..|stack| - 1];
      assert forall k :: 0 <= k < |p| ==> p[k] == stack[k];
      StackMatchesExist(d, myEdge, p, arena);
      var to := DirectionToEdge(d).to;
      var last := stack[|stack| - 1];
      var prev := StackMatches(d, myEdge, p, arena);
      var r := StackMatches(d, myEdge, stack, arena);
      assert |r| == |prev| + (if CanMatch(myEdge, TheirEdge(arena, last, to)) then 1 else 0);
      if |r| > 0 {
        if !CanMatch(myEdge, TheirEdge(arena, last, to)) {
          var k :| 0 <= k < |p| && CanMatch(myEdge, TheirEdge(arena, p[k], to));
          assert stack[k] == p[k];
        }
      }
      if exists k :: 0 <= k < |stack| && CanMatch(myEdge, TheirEdge(arena, stack[k], to)) {
        var k :| 0 <= k < |stack| && CanMatch(myEdge, TheirEdge(arena, stack[k], to));
        if k < |p| {
          assert p[k] == stack[k];
        }
      }
    }
  }

  /** One pass of the outer loop matches only with a consulted neighbour, and does so exactly when a piece there faces a partner. */
  lemma NeighborMatchesSpec(piece: ChessPiece, position: Position, grid: Grid, arena: Arena, rotation: Rotation,
                            d: Direction)
    requires IsValidShapeId(piece.shapeId) && WellFormed(grid, arena)
    ensures var r := NeighborMatches(piece, position, grid, arena, rotation, d);
      (forall e :: e in r ==>
         e.direction == d && Consulted(grid, position, d) &&
         e.neighborPiece in StackAt(grid, NeighborPosition(position, d)) && CanMatch(e.myEdge, e.theirEdge)) &&
      (|r| > 0 <==> exists k :: FacesMatch(piece, position, grid, arena, rotation, d, k))
  {
    var np := NeighborPosition(position, d);
    StackAtKnown(grid, arena, np);
    var r := NeighborMatches(piece, position, grid, arena, rotation, d);
    if Consulted(grid, position, d) {
      var stack := StackAt(grid, np);
      var myEdge := ShownEdge(piece.shapeId, rotation, DirectionToEdge(d).from);
      assert r == StackMatches(d, myEdge, stack, arena);
      StackMatchesSound(d, myEdge, stack, arena);
      StackMatchesExist(d, myEdge, stack, arena);
      if |r| > 0 {
        var k :| 0 <= k < |stack| && CanMatch(myEdge, TheirEdge(arena, stack[k], DirectionToEdge(d).to));
        assert FacesMatch(piece, position, grid, arena, rotation, d, k);
      }
      if exists k :: FacesMatch(piece, position, grid, arena, rotation, d, k) {
        var k :| FacesMatch(piece, position, grid, arena, rotation, d, k);
        assert 0 <= k < |stack| && CanMatch(myEdge, TheirEdge(arena, stack[k], DirectionToEdge(d).to));
      }
    } else {
      assert r == [];
      forall k ensures !FacesMatch(piece, position, grid, arena, rotation, d, k) {
      }
    }
  }

  /** The matches over several directions are the matches of each direction, and there is one exactly when some direction has one. */
  lemma {:induction false} MatchesAlongSpec(piece: ChessPiece, position: Position, grid: Grid, arena: Arena,
                                            rotation: Rotation, dirs: seq<Direction>)
    requires IsValidShapeId(piece.shapeId) && WellFormed(grid, arena)
    ensures var r := MatchesAlong(piece, position, grid, arena, rotation, dirs);
      (forall e :: e in r ==>
         e.direction in dirs && e in NeighborMatches(piece, position, grid, arena, rotation, e.direction)) &&
      (|r| > 0 <==> exists d :: d in dirs && |NeighborMatches(piece, position, grid, arena, rotation, d)| > 0)
    decreases |dirs|
  {
    if dirs != [] {
      var p := dirs[..|dirs| - 1];
      var last := dirs[|dirs| - 1];
      assert dirs == p + [last];
      assert forall d :: d in dirs <==> d in p || d == last;
      MatchesAlongSpec(piece, position, grid, arena, rotation, p);
      NeighborMatchesSpec(piece, position, grid, arena, rotation, last);
      var r := MatchesAlong(piece, position, grid, arena, rotation, dirs);
      var rp := MatchesAlong(piece, position, grid, arena, rotation, p);
      var rl := NeighborMatches(piece, position, grid, arena, rotation, last);
      assert r == rp + rl;
      assert forall e :: e in r <==> e in rp || e in rl;
    }
  }

  /** One more match at the end adds its id at the end. */
  lemma NeighborIdsSnoc(edges: seq<EdgeMatchInfo>, e: EdgeMatchInfo)
    ensures NeighborIds(edges + [e]) == NeighborIds(edges) + [e.neighborPiece]
  {
    assert (edges + [e])[..|edges|] == edges;
  }

  /** The outer loop of checkFit adds the matches of one more direction. */
  lemma MatchesAlongStep(piece: ChessPiece, position: Position, grid: Grid, arena: Arena, rotation: Rotation,
                         i: nat)
    requires IsValidShapeId(piece.shapeId) && WellFormed(grid, arena)
    requires i < |FitDirections|
    ensures MatchesAlong(piece, position, grid, arena, rotation, FitDirections[..i + 1]) ==
      MatchesAlong(piece, position, grid, arena, rotation, FitDirections[..i]) +
      NeighborMatches(piece, position, grid, arena, rotation, FitDirections[i])
  {
    assert FitDirections[..i + 1][..i] == FitDirections[..i];
  }

  /** The inner loop of checkFit adds the match with one more piece of the stack, if any. */
  lemma StackMatchesStep(d: Direction, myEdge: EdgeType, stack: seq<PieceId>, arena: Arena, j: nat)
    requires KnownIds(stack, arena)
    requires j < |stack|
    ensures KnownIds(stack[..j], arena) && KnownIds(stack[..j + 1], arena)
    ensures var theirEdge := TheirEdge(arena, stack[j], DirectionToEdge(d).to);
      StackMatches(d, myEdge, stack[..j + 1], arena) ==
      StackMatches(d, myEdge, stack[..j], arena) +
      (if CanMatch(myEdge, theirEdge) then [EdgeMatchInfo(d, myEdge, theirEdge, stack[j])] else [])
  {
    assert stack[..j + 1][..j] == stack[..j];
  }

  /** One pass of the inner loop of checkFit keeps both loop invariants. */
  lemma MatchStackStep(direction: Direction, myEdge: EdgeType, neighborPieces: seq<PieceId>, arena: Arena,
                       edgesIn: seq<EdgeMatchInfo>, j: nat, matchingEdges: seq<EdgeMatchInfo>, matchingPieces: seq<PieceId>)
    requires KnownIds(neighborPieces, arena) && j < |neighborPieces|
    requires matchingEdges == edgesIn + StackMatches(direction, myEdge, neighborPieces[..j], arena)
    requires matchingPieces == Dedupe(NeighborIds(matchingEdges))
    ensures var id := neighborPieces[j];
      var theirEdge := TheirEdge(arena, id, DirectionToEdge(direction).to);
      var info := EdgeMatchInfo(direction, myEdge, theirEdge, id);
      var edges' := if CanMatch(myEdge, theirEdge) then matchingEdges + [info] else matchingEdges;
      var pieces' := if CanMatch(myEdge, theirEdge) && id !in matchingPieces then matchingPieces + [id] else matchingPieces;
      edges' == edgesIn + StackMatches(direction, myEdge, neighborPieces[..j + 1], arena) &&
      pieces' == Dedupe(NeighborIds(edges'))
  {
    StackMatchesStep(direction, myEdge, neighborPieces, arena, j);
    var id := neighborPieces[j];
    var theirEdge := TheirEdge(arena, id, DirectionToEdge(direction).to);
    var info := EdgeMatchInfo(direction, myEdge, theirEdge, id);
    if CanMatch(myEdge, theirEdge) {
      NeighborIdsSnoc(matchingEdges, info);
      DedupeSnoc(NeighborIds(matchingEdges), id);
      AppendAssoc(edgesIn, StackMatches(direction, myEdge, neighborPieces[..j], arena), [info]);
    }
  }

  /**
   * The inner loop of checkFit: walks the neighbour stack bottom to top and appends every
   * match, adding each matched piece once.
   */
  method MatchStack(direction: Direction, myEdge: EdgeType, neighborPieces: seq<PieceId>, arena: Arena,
                    edgesIn: seq<EdgeMatchInfo>, piecesIn: seq<PieceId>)
    returns (matchingEdges: seq<EdgeMatchInfo>, matchingPieces: seq<PieceId>)
    requires KnownIds(neighborPieces, arena)
    requires piecesIn == Dedupe(NeighborIds(edgesIn))
    ensures matchingEdges == edgesIn + StackMatches(direction, myEdge, neighborPieces, arena)
    ensures matchingPieces == Dedupe(NeighborIds(matchingEdges))
  {
    var edgeInfo := DirectionToEdge(direction);
    matchingEdges, matchingPieces := edgesIn, piecesIn;
    var j := 0;
    assert neighborPieces[..0] == [];
    while j < |neighborPieces|
      invariant 0 <= j <= |neighborPieces|
      invariant matchingEdges == edgesIn + StackMatches(direction, myEdge, neighborPieces[..j], arena)
      invariant matchingPieces == Dedupe(NeighborIds(matchingEdges))
    {
      MatchStackStep(direction, myEdge, neighborPieces, arena, edgesIn, j, matchingEdges, matchingPieces);
      var neighborId := neighborPieces[j];
      var neighborPiece := arena[neighborId];
      var neighborShape := GetPieceShape(neighborPiece.shapeId);
      var theirEdge := GetRotatedEdge(neighborShape.edges, edgeInfo.to, neighborPiece.rotation);
      OriginalSideIsTurn(edgeInfo.to, neighborPiece.rotation);
      if CanMatch(myEdge, theirEdge) {
        matchingEdges := matchingEdges + [EdgeMatchInfo(direction, myEdge, theirEdge, neighborId)];
        if neighborId !in matchingPieces {
          matchingPieces := matchingPieces + [neighborId];
        }
      }
      j := j + 1;
    }
    assert neighborPieces[..j] == neighborPieces;
  }

  /**
   * One pass of the outer loop of checkFit: a neighbour off the board, missing or empty is
   * skipped; otherwise its stack is matched against the facing edge.
   */
  method MatchDirection(piece: ChessPiece, position: Position, grid: Grid, arena: Arena, testRotation: Rotation,
                        direction: Direction, edgesIn: seq<EdgeMatchInfo>, piecesIn: seq<PieceId>)
    returns (matchingEdges: seq<EdgeMatchInfo>, matchingPieces: seq<PieceId>)
    requires IsValidShapeId(piece.shapeId) && WellFormed(grid, arena)
    requires piecesIn == Dedupe(NeighborIds(edgesIn))
    ensures matchingEdges == edgesIn + NeighborMatches(piece, position, grid, arena, testRotation, direction)
    ensures matchingPieces == Dedupe(NeighborIds(matchingEdges))
  {
    var shape := GetPieceShape(piece.shapeId);
    var neighborPos := NeighborPosition(position, direction);
    StackAtKnown(grid, arena, neighborPos);
    if neighborPos.row < 0 || neighborPos.row >= |grid| || neighborPos.col < 0 ||
       neighborPos.col >= (if |grid| > 0 then |grid[0]| else 0) {
      // out of bounds: skipped
      assert NeighborMatches(piece, position, grid, arena, testRotation, direction) == [];
      matchingEdges, matchingPieces := edgesIn, piecesIn;
    } else if neighborPos.col >= |grid[neighborPos.row]| || |grid[neighborPos.row][neighborPos.col].pieces| == 0 {
      // no cell, or an empty one: skipped
      assert NeighborMatches(piece, position, grid, arena, testRotation, direction) == [];
      matchingEdges, matchingPieces := edgesIn, piecesIn;
    } else {
      var edgeInfo := DirectionToEdge(direction);
      var myEdge := GetRotatedEdge(shape.edges, edgeInfo.from, testRotation);
      OriginalSideIsTurn(edgeInfo.from, testRotation);
      var neighborPieces := grid[neighborPos.row][neighborPos.col].pieces;
      assert neighborPieces == StackAt(grid, neighborPos);
      matchingEdges, matchingPieces := MatchStack(direction, myEdge, neighborPieces, arena, edgesIn, piecesIn);
    }
  }

  /** checkFit: the outer loop over the four directions, collecting matches and matched pieces. */
  method CheckFit(piece: ChessPiece, position: Position, grid: Grid, arena: Arena, rotation: Option<Rotation>)
    returns (result: FitCheckResult)
    requires IsValidShapeId(piece.shapeId) && WellFormed(grid, arena)
    ensures result == FitResult(piece, position, grid, arena, rotation)
  {
    var testRotation := rotation.GetOr(piece.rotation);
    var matchingEdges: seq<EdgeMatchInfo> := [];
    var matchingPieces: seq<PieceId> := [];
    var i := 0;
    while i < |FitDirections|
      invariant 0 <= i <= |FitDirections|
      invariant matchingEdges == MatchesAlong(piece, position, grid, arena, testRotation, FitDirections[..i])
      invariant matchingPieces == Dedupe(NeighborIds(matchingEdges))
    {
      MatchesAlongStep(piece, position, grid, arena, testRotation, i);
      matchingEdges, matchingPieces :=
        MatchDirection(piece, position, grid, arena, testRotation, FitDirections[i], matchingEdges, matchingPieces);
      i := i + 1;
    }
    assert FitDirections[..i] == FitDirections;
    result := FitCheckResult(|matchingEdges| > 0, matchingPieces, matchingEdges);
  }

  /**
   * A piece fits exactly when some piece in some in-bounds orthogonal neighbour stack shows a
   * partner of the piece's facing edge.
   */
  lemma {:induction false} FitIff(piece: ChessPiece, position: Position, grid: Grid, arena: Arena,
                                  rotation: Option<Rotation>)
    requires IsValidShapeId(piece.shapeId) && WellFormed(grid, arena)
    ensures FitResult(piece, position, grid, arena, rotation).canFit <==>
      exists d, k :: d in FitDirections && FacesMatch(piece, position, grid, arena, rotation.GetOr(piece.rotation), d, k)
  {
    var rot := rotation.GetOr(piece.rotation);
    MatchesAlongSpec(piece, position, grid, arena, rot, FitDirections);
    forall d ensures var r := NeighborMatches(piece, position, grid, arena, rot, d);
      |r| > 0 <==> exists k :: FacesMatch(piece, position, grid, arena, rot, d, k)
    {
      NeighborMatchesSpec(piece, position, grid, arena, rot, d);
    }
    if FitResult(piece, position, grid, arena, rotation).canFit {
      var d :| d in FitDirections && |NeighborMatches(piece, position, grid, arena, rot, d)| > 0;
      var k :| FacesMatch(piece, position, grid, arena, rot, d, k);
    }
    if exists d, k :: d in FitDirections && FacesMatch(piece, position, grid, arena, rot, d, k) {
      var d, k :| d in FitDirections && FacesMatch(piece, position, grid, arena, rot, d, k);
      assert |NeighborMatches(piece, position, grid, arena, rot, d)| > 0;
    }
  }

  /** With no piece in any in-bounds orthogonal neighbour nothing fits. */
  lemma NoNeighboursNoFit(piece: ChessPiece, position: Position, grid: Grid, arena: Arena,
                          rotation: Option<Rotation>)
    requires IsValidShapeId(piece.shapeId) && WellFormed(grid, arena)
    requires forall d :: d in FitDirections ==> !Consulted(grid, position, d)
    ensures !FitResult(piece, position, grid, arena, rotation).canFit
    ensures FitResult(piece, position, grid, arena, rotation).matchingPieces == []
  {
    FitIff(piece, position, grid, arena, rotation);
  }

  /**
   * The matched pieces are distinct and each sits in the stack of a consulted neighbour, and
   * they come in the order of their first match.
   */
  lemma MatchingPiecesFromNeighbours(piece: ChessPiece, position: Position, grid: Grid, arena: Arena,
                                     rotation: Option<Rotation>)
    requires IsValidShapeId(piece.shapeId) && WellFormed(grid, arena)
    ensures var r := FitResult(piece, position, grid, arena, rotation);
      NoDuplicates(r.matchingPieces) &&
      (forall id :: id in r.matchingPieces <==> exists e :: e in r.matchingEdges && e.neighborPiece == id) &&
      (forall id :: id in r.matchingPieces ==>
         exists d :: d in FitDirections && Consulted(grid, position, d) && id in StackAt(grid, NeighborPosition(position, d)))
  {
    var r := FitResult(piece, position, grid, arena, rotation);
    var rot := rotation.GetOr(piece.rotation);
    DedupedIds(r.matchingEdges);
    MatchesAlongSpec(piece, position, grid, arena, rot, FitDirections);
    forall id | id in r.matchingPieces
      ensures exists d :: d in FitDirections && Consulted(grid, position, d) && id in StackAt(grid, NeighborPosition(position, d))
    {
      var e :| e in r.matchingEdges && e.neighborPiece == id;
      NeighborMatchesSpec(piece, position, grid, arena, rot, e.direction);
    }
  }

  /** The deduplicated ids of a list of matches: each matched neighbour once, and nothing else. */
  lemma DedupedIds(edges: seq<EdgeMatchInfo>)
    ensures NoDuplicates(Dedupe(NeighborIds(edges)))
    ensures forall id :: id in Dedupe(NeighborIds(edges)) <==> exists e :: e in edges && e.neighborPiece == id
  {
    var ids := NeighborIds(edges);
    NeighborIdsSpec(edges);
    DedupeSpec(ids);
    forall id ensures id in ids <==> exists e :: e in edges && e.neighborPiece == id {
      if id in ids {
        var k :| 0 <= k < |ids| && ids[k] == id;
        assert edges[k] in edges;
      }
      if exists e :: e in edges && e.neighborPiece == id {
        var e :| e in edges && e.neighborPiece == id;
        var k :| 0 <= k < |edges| && edges[k] == e;
        assert ids[k] == id;
      }
    }
  }

  /** When only the neighbour above holds pieces, checkFit sees only the matches with that stack. */
  lemma OnlyAboveConsulted(piece: ChessPiece, position: Position, grid: Grid, arena: Arena, rotation: Rotation)
    requires IsValidShapeId(piece.shapeId) && WellFormed(grid, arena)
    requires !Consulted(grid, position, Direction.Right)
    requires !Consulted(grid, position, Direction.Down)
    requires !Consulted(grid, position, Direction.Left)
    ensures MatchesAlong(piece, position, grid, arena, rotation, FitDirections) ==
      NeighborMatches(piece, position, grid, arena, rotation, Direction.Up)
  {
    var up := NeighborMatches(piece, position, grid, arena, rotation, Direction.Up);
    assert FitDirections[..0] == [];
    MatchesAlongStep(piece, position, grid, arena, rotation, 0);
    assert MatchesAlong(piece, position, grid, arena, rotation, FitDirections[..1]) == up;
    MatchesAlongStep(piece, position, grid, arena, rotation, 1);
    assert NeighborMatches(piece, position, grid, arena, rotation, Direction.Right) == [];
    assert MatchesAlong(piece, position, grid, arena, rotation, FitDirections[..2]) == up;
    MatchesAlongStep(piece, position, grid, arena, rotation, 2);
    assert NeighborMatches(piece, position, grid, arena, rotation, Direction.Down) == [];
    assert MatchesAlong(piece, position, grid, arena, rotation, FitDirections[..3]) == up;
    MatchesAlongStep(piece, position, grid, arena, rotation, 3);
    assert NeighborMatches(piece, position, grid, arena, rotation, Direction.Left) == [];
    assert FitDirections[..4] == FitDirections;
  }

  /**
   * A shape-3 piece at rotation 0 directly below a lone shape-2 piece at rotation 0, with the
   * other three neighbours empty, fits, and the neighbour is the only matched piece
   * (the bottom edge of shape 2 is the partner of the top edge of shape 3).
   */
  lemma FitsBelowShapeTwo(piece: ChessPiece, position: Position, grid: Grid, arena: Arena, above: PieceId)
    requires IsValidShapeId(piece.shapeId) && WellFormed(grid, arena)
    requires piece.shapeId == 3
    requires InFitBounds(grid, NeighborPosition(position, Direction.Up))
    requires StackAt(grid, NeighborPosition(position, Direction.Up)) == [above]
    requires above in arena && arena[above].shapeId == 2 && arena[above].rotation == 0
    requires !Consulted(grid, position, Direction.Right)
    requires !Consulted(grid, position, Direction.Down)
    requires !Consulted(grid, position, Direction.Left)
    ensures FitResult(piece, position, grid, arena, Some(0)).canFit
    ensures FitResult(piece, position, grid, arena, Some(0)).matchingPieces == [above]
  {
    var stack := StackAt(grid, NeighborPosition(position, Direction.Up));
    StackAtKnown(grid, arena, NeighborPosition(position, Direction.Up));
    assert stack[..0] == [];
    var up := NeighborMatches(piece, position, grid, arena, 0, Direction.Up);
    assert up == StackMatches(Direction.Up, BackPlus, stack, arena);
    assert |up| == 1 && up[0].neighborPiece == above;
    OnlyAboveConsulted(piece, position, grid, arena, 0);
    NeighborIdsSpec(up);
    var ids := NeighborIds(up);
    assert |ids| == 1 && ids[0] == above && ids[..0] == [];
    assert Dedupe(ids) == [above];
  }

  // ---------------------------------------------------------------- getValidRotations

  /** The rotations of `rots` that are in `fits`, in their order. */
  function KeepRotations(rots: seq<Rotation>, fits: set<Rotation>): seq<Rotation>
    decreases |rots|
  {
    if rots == [] then []
    else
      var prev := KeepRotations(rots[..|rots| - 1], fits);
      var x := rots[|rots| - 1];
      if x in fits then prev + [x] else prev
  }

  /** Filtering keeps exactly the rotations that pass, no more of them than there were, in their order. */
  lemma {:induction false} KeepRotationsSpec(rots: seq<Rotation>, fits: set<Rotation>)
    ensures var r := KeepRotations(rots, fits);
      |r| <= |rots| &&
      (forall x :: x in r <==> x in rots && x in fits) &&
      (r == [] <==> forall x :: x in rots ==> x !in fits) &&
      ((forall i, j :: 0 <= i < j < |rots| ==> rots[i] < rots[j]) ==> (forall i, j :: 0 <= i < j < |r| ==> r[i] < r[j]))
    decreases |rots|
  {
    if rots != [] {
      var p := rots[..|rots| - 1];
      var x := rots[|rots| - 1];
      assert rots == p + [x];
      KeepRotationsSpec(p, fits);
      var prev := KeepRotations(p, fits);
      if (forall i, j :: 0 <= i < j < |rots| ==> rots[i] < rots[j]) && x in fits {
        forall y | y in prev ensures y < x {
          var i :| 0 <= i < |p| && p[i] == y;
          assert rots[i] < rots[|rots| - 1];
        }
        var r := prev + [x];
        forall i, j | 0 <= i < j < |r| ensures r[i] < r[j] {
          if j == |r| - 1 {
            assert r[i] in prev;
          } else {
            assert r[i] == prev[i] && r[j] == prev[j];
          }
        }
      }
    }
  }

  /** One more rotation considered at the end of the filter. */
  lemma KeepRotationsStep(rots: seq<Rotation>, fits: set<Rotation>, i: nat)
    requires i < |rots|
    ensures KeepRotations(rots[..i + 1], fits) ==
      if rots[i] in fits then KeepRotations(rots[..i], fits) + [rots[i]] else KeepRotations(rots[..i], fits)
  {
    assert rots[..i + 1][..i] == rots[..i];
  }

  /** The rotations at which checkFit reports a fit. */
  function FitSet(piece: ChessPiece, position: Position, grid: Grid, arena: Arena): set<Rotation>
    requires IsValidShapeId(piece.shapeId) && WellFormed(grid, arena)
  {
    set r: Rotation | r in AllRotations && FitResult(piece, position, grid, arena, Some(r)).canFit
  }

  /** A rotation is in the fit set exactly when checkFit reports a fit at it. */
  lemma FitSetMember(piece: ChessPiece, position: Position, grid: Grid, arena: Arena, r: Rotation)
    requires IsValidShapeId(piece.shapeId) && WellFormed(grid, arena)
    ensures r in FitSet(piece, position, grid, arena) <==> FitResult(piece, position, grid, arena, Some(r)).canFit
  {
    assert r == 0 || r == 90 || r == 180 || r == 270;
  }

  /** getValidRotations: the rotations 0, 90, 180, 270 at which the piece fits, in that order. */
  function ValidRotations(piece: ChessPiece, position: Position, grid: Grid, arena: Arena): seq<Rotation>
    requires IsValidShapeId(piece.shapeId) && WellFormed(grid, arena)
  {
    KeepRotations(AllRotations, FitSet(piece, position, grid, arena))
  }

  /** getValidRotations */
  method GetValidRotations(piece: ChessPiece, position: Position, grid: Grid, arena: Arena)
    returns (validRotations: seq<Rotation>)
    requires IsValidShapeId(piece.shapeId) && WellFormed(grid, arena)
    ensures validRotations == ValidRotations(piece, position, grid, arena)
  {
    ghost var fits := FitSet(piece, position, grid, arena);
    validRotations := [];
    var rotations := AllRotations;
    var i := 0;
    while i < |rotations|
      invariant 0 <= i <= |rotations|
      invariant validRotations == KeepRotations(rotations[..i], fits)
    {
      KeepRotationsStep(rotations, fits, i);
      var fitResult := CheckFit(piece, position, grid, arena, Some(rotations[i]));
      FitSetMember(piece, position, grid, arena, rotations[i]);
      if fitResult.canFit {
        validRotations := validRotations + [rotations[i]];
      }
      i := i + 1;
    }
    assert rotations[..i] == rotations;
  }

  /** ALL_ROTATIONS is in increasing order. */
  lemma AllRotationsIncreasing()
    ensures forall i, j :: 0 <= i < j < |AllRotations| ==> AllRotations[i] < AllRotations[j]
  {
    assert AllRotations[0] == 0 && AllRotations[1] == 90 && AllRotations[2] == 180 && AllRotations[3] == 270;
  }

  /**
   * getValidRotations gives exactly the fitting rotations, each once, in increasing order, at
   * most four of them, and none where no orthogonal neighbour holds a piece.
   */
  lemma ValidRotationsSpec(piece: ChessPiece, position: Position, grid: Grid, arena: Arena)
    requires IsValidShapeId(piece.shapeId) && WellFormed(grid, arena)
    ensures var r := ValidRotations(piece, position, grid, arena);
      |r| <= 4 &&
      (forall x: Rotation :: x in r <==> FitResult(piece, position, grid, arena, Some(x)).canFit) &&
      (forall i, j :: 0 <= i < j < |r| ==> r[i] < r[j]) &&
      ((forall d :: d in FitDirections ==> !Consulted(grid, position, d)) ==> r == [])
  {
    var fits := FitSet(piece, position, grid, arena);
    var r := ValidRotations(piece, position, grid, arena);
    KeepRotationsSpec(AllRotations, fits);
    AllRotationsIncreasing();
    forall x: Rotation ensures x in r <==> FitResult(piece, position, grid, arena, Some(x)).canFit {
      assert x == 0 || x == 90 || x == 180 || x == 270;
      FitSetMember(piece, position, grid, arena, x);
    }
    if forall d :: d in FitDirections ==> !Consulted(grid, position, d) {
      forall x | x in AllRotations ensures x !in fits {
        NoNeighboursNoFit(piece, position, grid, arena, Some(x));
        FitSetMember(piece, position, grid, arena, x);
      }
    }
  }

  // ---------------------------------------------------------------- arePositionsConnected

  /** The direction arePositionsConnected picks for an orthogonally adjacent pair. */
  function AdjacentDirection(rowDiff: int, colDiff: int): Direction {
    if rowDiff == -1 then Direction.Up
    else if rowDiff == 1 then Direction.Down
    else if colDiff == -1 then Direction.Left
    else Direction.Right
  }

  /** arePositionsConnected, stated with quantifiers over the two stacks. */
  predicate Connected(position1: Position, position2: Position, grid: Grid, arena: Arena)
    requires WellFormed(grid, arena)
  {
    var rowDiff := position2.row - position1.row;
    var colDiff := position2.col - position1.col;
    var s1, s2 := StackAt(grid, position1), StackAt(grid, position2);
    StackAtKnown(grid, arena, position1);
    StackAtKnown(grid, arena, position2);
    var edgeInfo := DirectionToEdge(AdjacentDirection(rowDiff, colDiff));
    Abs(rowDiff) + Abs(colDiff) == 1 && |s1| > 0 && |s2| > 0 &&
    exists i, j :: 0 <= i < |s1| && 0 <= j < |s2| &&
      CanMatch(TheirEdge(arena, s1[i], edgeInfo.from), TheirEdge(arena, s2[j], edgeInfo.to))
  }

  /** arePositionsConnected, with its early returns and nested loops. */
  method ArePositionsConnected(position1: Position, position2: Position, grid: Grid, arena: Arena)
    returns (connected: bool)
    requires WellFormed(grid, arena)
    ensures connected == Connected(position1, position2, grid, arena)
  {
    var rowDiff := position2.row - position1.row;
    var colDiff := position2.col - position1.col;
    if Abs(rowDiff) + Abs(colDiff) != 1 {
      return false;
    }
    var direction := AdjacentDirection(rowDiff, colDiff);
    var cell1 := StackAt(grid, position1);
    var cell2 := StackAt(grid, position2);
    StackAtKnown(grid, arena, position1);
    StackAtKnown(grid, arena, position2);
    if |cell1| == 0 || |cell2| == 0 {
      return false;
    }
    var edgeInfo := DirectionToEdge(direction);
    var i := 0;
    while i < |cell1|
      invariant 0 <= i <= |cell1|
      invariant forall a, b :: 0 <= a < i && 0 <= b < |cell2| ==>
        !CanMatch(TheirEdge(arena, cell1[a], edgeInfo.from), TheirEdge(arena, cell2[b], edgeInfo.to))
    {
      var edge1 := TheirEdge(arena, cell1[i], edgeInfo.from);
      var j := 0;
      while j < |cell2|
        invariant 0 <= j <= |cell2|
        invariant forall a, b :: 0 <= a < i && 0 <= b < |cell2| ==>
          !CanMatch(TheirEdge(arena, cell1[a], edgeInfo.from), TheirEdge(arena, cell2[b], edgeInfo.to))
        invariant forall b :: 0 <= b < j ==> !CanMatch(edge1, TheirEdge(arena, cell2[b], edgeInfo.to))
      {
        var edge2 := TheirEdge(arena, cell2[j], edgeInfo.to);
        if CanMatch(edge1, edge2) {
          return true;
        }
        j := j + 1;
      }
      i := i + 1;
    }
    return false;
  }

  /**
   * Connection is symmetric: seen from the other cell the direction reverses, the facing
   * sides swap, and the partner relation is symmetric.
   */
  lemma ConnectedSymmetric(position1: Position, position2: Position, grid: Grid, arena: Arena)
    requires WellFormed(grid, arena)
    ensures Connected(position1, position2, grid, arena) == Connected(position2, position1, grid, arena)
  {
    var s1, s2 := StackAt(grid, position1), StackAt(grid, position2);
    StackAtKnown(grid, arena, position1);
    StackAtKnown(grid, arena, position2);
    var e12 := DirectionToEdge(AdjacentDirection(position2.row - position1.row, position2.col - position1.col));
    var e21 := DirectionToEdge(AdjacentDirection(position1.row - position2.row, position1.col - position2.col));
    if Abs(position2.row - position1.row) + Abs(position2.col - position1.col) == 1 {
      assert e21 == EdgePair(e12.to, e12.from);
      forall e1: EdgeType, e2: EdgeType ensures CanMatch(e1, e2) == CanMatch(e2, e1) {
        EdgeMatchInvolution(e1);
        EdgeMatchInvolution(e2);
      }
      if Connected(position1, position2, grid, arena) {
        var i, j :| 0 <= i < |s1| && 0 <= j < |s2| &&
          CanMatch(TheirEdge(arena, s1[i], e12.from), TheirEdge(arena, s2[j], e12.to));
        assert CanMatch(TheirEdge(arena, s2[j], e21.from), TheirEdge(arena, s1[i], e21.to));
      }
      if Connected(position2, position1, grid, arena) {
        var j, i :| 0 <= j < |s2| && 0 <= i < |s1| &&
          CanMatch(TheirEdge(arena, s2[j], e21.from), TheirEdge(arena, s1[i], e21.to));
        assert CanMatch(TheirEdge(arena, s1[i], e12.from), TheirEdge(arena, s2[j], e12.to));
      }
    }
  }

  /** Connection needs orthogonal adjacency and two non-empty cells. */
  lemma ConnectedNeedsAdjacentPieces(position1: Position, position2: Position, grid: Grid, arena: Arena)
    requires WellFormed(grid, arena)
    ensures Connected(position1, position2, grid, arena) ==>
      Abs(position2.row - position1.row) + Abs(position2.col - position1.col) == 1 &&
      |StackAt(grid, position1)| > 0 && |StackAt(grid, position2)| > 0
  {
  }

  /** The partner relation is the full 4-by-4 matrix of EDGE_MATCH_MAP: symmetric, irreflexive, one partner each. */
  lemma CanMatchMatrix(a: EdgeType, b: EdgeType, c: EdgeType)
    ensures CanMatch(a, b) <==> b == EdgeMatch(a)
    ensures CanMatch(a, b) == CanMatch(b, a)
    ensures !CanMatch(a, a)
    ensures CanMatch(a, b) && CanMatch(a, c) ==> b == c
  {
    EdgeMatchInvolution(a);
    EdgeMatchInvolution(b);
  }
}
