# Puzzle chess and picture puzzle, modelled in Dafny

The project models two small game engines.

The first is an edge-matching puzzle chess game on a square board. Each player owns numbered pieces whose four sides carry edge types. The game covers the following:
- a piece moves one to three cells in one of eight directions, or one cell when it also turns;
- a piece may only come to rest where its rotated edges match the pieces stacked around the target;
- pieces start in the players' start rows, take turns, may pass, and may undo a move;
- the player's bird piece may also rotate in place;
- a player wins with all their pieces in their finish rows.

The second is a 4-by-4 picture puzzle. Four numbered pieces are dragged between a tray and the board's cells, and the puzzle is won when pieces 1 to 4 stand in the top row in order.

Each source file is one module:
- `Util` holds an option type, duplicate-free sequences, first-occurrence search and first-seen deduplication.
- `ChessTypes` models `src/types/chess/index.ts`.
- `Pieces` models `src/constants/chess/pieces.ts`.
- `BoardConstants` models `src/constants/chess/board.ts`.
- `ChessBoard`, `EdgeMatcher`, `MoveValidator` and `Engine` model `Board.ts`, `EdgeMatcher.ts`, `MoveValidator.ts` and `GameEngine.ts` under `src/classes/chess/`.
- `Puzzle` models `src/classes/PuzzleBoard.ts`.

How the state is represented:
- Chess pieces are values identified by their string id. They live in an id-keyed map, the arena, owned by the game state.
- A board cell holds a stack of piece ids, bottom first.
- The source writes a piece's position through a shared object. Here that write is an update of the arena entry.
- The puzzle's cells refer to piece objects. A cell here holds the piece's index in the piece list, so a write to a piece is seen through every cell that refers to it.

How operations are modelled:
- An operation that loops or changes state is first a function from the old state to an outcome. Its properties are proved as lemmas about that function.
- The source's classes `Board`, `GameEngine` and `PuzzleBoard` are Dafny classes with the same fields. Their methods are proved to leave exactly the state the outcome function describes, and to keep the class invariant.
- The loops of `MoveValidator` and `GameEngine` are methods with loop invariants, proved equal to specification functions.

The model follows the code as written, including these behaviours:
- `getDirection` looks only at the signs of the row and column differences.
- `validateMove` checks neither occupancy nor whether the piece is a bird.
- `checkFit` also compares the moving piece against its own stack entry.
- `undo` charges the player whose turn it is, not the mover. It restores the rotation that precedes `newRotation`, not `oldRotation`.
- `placeInitialPieces` advances its index even where a placement fails.
- The puzzle's `removePiece` does not recheck the status.
- The puzzle's top-row check covers only the cells the board has, at most four.

The source's comments and its code disagree in four places. The model follows the code, and a lemma shows each divergence:
- getDirection's comment promises null for a target off a line (src/classes/chess/MoveValidator.ts:47-53). The code compares signs only, so (4,4) to (2,5) gives UP_RIGHT: MoveValidator.GetDirectionSignOnly.
- getPath's loop never reaches `to` when the two positions are not on one line (src/classes/chess/MoveValidator.ts:88-94): MoveValidator.UnalignedNeverReached.
- validateMove's straight-line rejection (src/classes/chess/MoveValidator.ts:168-173) can never be returned: MoveValidator.ValidateMoveReasons.
- undo charges the player whose turn it is, who is not the mover (src/classes/chess/GameEngine.ts:310-324): Engine.MoveThenUndo.

The sources disagree about the default board size. The comments say 8:
- the `boardSize` field of `GameConfig` (src/types/chess/index.ts:256);
- the default argument of `isValidPosition` (src/types/chess/index.ts:289);
- the header of src/classes/chess/Board.ts:3.

The constant `BOARD_SIZE` is 4 (src/constants/chess/board.ts:11), and the model follows the constant.

## Model

| member | source | states |
|---|---|---|
| Util.DedupeSpec | src/classes/chess/EdgeMatcher.ts:183-186 | the find-guarded push leaves every matched piece exactly once and nothing else: no repetition, same members, never longer |
| Util.DedupeFirstSeenOrder | src/classes/chess/EdgeMatcher.ts:183-186 | the kept pieces appear in the order of their first occurrence |
| Util.RemoveAt | src/classes/chess/Board.ts:154-158 | splice(i, 1) removes exactly the element at i: one shorter, elements before i unchanged, elements after i shifted down by one |
| ChessTypes.GeneratePieceIdShape | src/types/chess/index.ts:303-305 | a generated id is `p`, the player digit and `-piece`, then the printed shape id, a dash and the printed index |
| ChessTypes.GeneratePieceIdInjective | src/types/chess/index.ts:135 | the "unique ID" promise: two generated ids are equal only when player, shape id and index are all equal |
| ChessTypes.NatToStringInjective | src/types/chess/index.ts:303-305 | the decimal rendering in the id template is injective |
| ChessTypes.SplitAtDash | src/types/chess/index.ts:303-305 | the dash after the shape id separates the two numbers unambiguously |
| ChessTypes.DirectionVectorsTable | src/types/chess/index.ts:84-93 | the eight vectors are distinct, non-zero unit steps and cover every non-zero sign pair; the direction list has all eight directions once |
| ChessTypes.PositionsEqualIsEquality | src/types/chess/index.ts:296-298 | positionsEqual is exactly equality of positions, so reflexive and symmetric |
| ChessTypes.ValidPositionsAreCells | src/types/chess/index.ts:289-291 | isValidPosition holds of exactly the n × n cells of an n-by-n board |
| ChessTypes.IsValidPosition | src/types/chess/index.ts:289-291 | the cell test 0 <= row, col < boardSize; ValidPositionsAreCells states that it holds exactly on the board's cells |
| ChessTypes.PositionsEqual | src/types/chess/index.ts:296-298 | the component-wise comparison; PositionsEqualIsEquality proves it is equality of positions |
| ChessTypes.GeneratePieceId | src/types/chess/index.ts:303-305 | the id text of a piece; GeneratePieceIdShape states its layout and GeneratePieceIdInjective its uniqueness |
| Pieces.GetPieceShape | src/constants/chess/pieces.ts:116-122 | the shape returned for a valid id carries that id |
| Pieces.EdgeMatchInvolution | src/constants/chess/pieces.ts:106-111 | the partner of the partner is the edge itself, no edge is its own partner, and partners stay in the same forward or backward family |
| Pieces.ValidShapeIds | src/constants/chess/pieces.ts:95-136 | isValidShapeId, getValidShapeIds and the keys of PIECE_SHAPES describe the same ids, and the table lookup is getPieceShape |
| Pieces.PieceShapesTable | src/constants/chess/pieces.ts:17-100 | every shape is filed under its own id, the four edge sets are pairwise different, and shape 1 has the listed edges |
| Pieces.EdgeMatch | src/constants/chess/pieces.ts:106-111 | the partner edge of each edge type; EdgeMatchInvolution states that the table is an involution without fixed points that keeps each family |
| Pieces.IsValidShapeId | src/constants/chess/pieces.ts:134-136 | the shape-id test; ValidShapeIds states that it agrees with the shape table's keys |
| Pieces.GetValidShapeIds | src/constants/chess/pieces.ts:127-129 | the list of shape ids; ValidShapeIds states that its members are exactly the valid ids |
| BoardConstants.FinishIsOpponentStart | src/constants/chess/board.ts:31-36 | each player's finish rows are the opponent's start rows |
| BoardConstants.ZoneMembership | src/constants/chess/board.ts:57-82 | the zone predicates are membership in the row lists; a finish row for one player is a start row for the other; no row starts both players; every zone row lies on the 4-row board |
| BoardConstants.StepLimitsOrdered | src/constants/chess/board.ts:41-93 | MIN_MOVE_STEPS ≤ ROTATE_MOVE_LIMIT ≤ MAX_MOVE_STEPS, and the default configuration has board size 4, four pieces per player and no second pass |
| BoardConstants.IsRowInStartZone | src/constants/chess/board.ts:57-60 | membership in the player's start rows; ZoneMembership states that, and that the zones lie on the board |
| BoardConstants.IsRowInFinishZone | src/constants/chess/board.ts:65-68 | membership in the player's finish rows; ZoneMembership and FinishIsOpponentStart state it |
| BoardConstants.GetStartRows | src/constants/chess/board.ts:73-75 | the player's start rows; ZoneMembership states that they are disjoint and on the board |
| BoardConstants.GetFinishRows | src/constants/chess/board.ts:80-82 | the player's finish rows; FinishIsOpponentStart states that they are the opponent's start rows |
| EdgeMatcher.SideIndex | src/classes/chess/EdgeMatcher.ts:57-58 | indexOf never misses: every side has an index below 4 |
| EdgeMatcher.OriginalSideIsTurn | src/classes/chess/EdgeMatcher.ts:41-67 | the index arithmetic of getRotatedEdge implements the turning table of its documentation for every side and rotation |
| EdgeMatcher.RotationsShowEachSideOnce | src/classes/chess/EdgeMatcher.ts:44-66 | rotation 0 shows the stored edge, and over the four rotations a fixed side shows four different stored sides |
| EdgeMatcher.OppositeSideInvolution | src/classes/chess/EdgeMatcher.ts:76-84 | the opposite of the opposite is the side itself, no side is its own opposite, and it is the side shown after half a turn |
| EdgeMatcher.NeighborIsVectorStep | src/classes/chess/EdgeMatcher.ts:93-110 | the local vector table of getNeighborPosition agrees with DIRECTION_VECTORS |
| EdgeMatcher.DirectionToEdgeTable | src/types/chess/index.ts:98-107 | `to` is always opposite `from`; an orthogonal direction's `from` side faces the neighbour in that direction; a diagonal uses the vertical pair of its row component |
| EdgeMatcher.SetStack | src/classes/chess/Board.ts:133-184 | replacing one cell's stack keeps the grid's shape, sets that stack and leaves every other cell's stack as it was |
| EdgeMatcher.StackMatchesSound | src/classes/chess/EdgeMatcher.ts:166-188 | the matches against one stack are matching pairs with pieces of that stack, in that direction, at most one per stacked piece |
| EdgeMatcher.StackMatchesExist | src/classes/chess/EdgeMatcher.ts:166-188 | there is a match against a stack exactly when some stacked piece shows a partner of the facing edge |
| EdgeMatcher.NeighborMatchesSpec | src/classes/chess/EdgeMatcher.ts:141-188 | one direction's matches are only with an in-bounds, non-empty neighbour, and there is one exactly when a piece there faces a partner |
| EdgeMatcher.MatchesAlongSpec | src/classes/chess/EdgeMatcher.ts:141-189 | the matches over several directions are each direction's matches, and there is one exactly when some direction has one |
| EdgeMatcher.MatchStack | src/classes/chess/EdgeMatcher.ts:166-188 | the inner loop appends exactly the stack's matches and keeps the matched pieces equal to the deduplicated neighbours of all matches |
| EdgeMatcher.MatchDirection | src/classes/chess/EdgeMatcher.ts:142-188 | one pass of the outer loop appends exactly the direction's matches (none for an off-board, missing or empty neighbour) and keeps the matched pieces deduplicated |
| EdgeMatcher.CheckFit | src/classes/chess/EdgeMatcher.ts:122-196 | checkFit returns the specification FitResult: all matches in direction order, the matched pieces once each, and canFit when there is a match |
| EdgeMatcher.FitIff | src/classes/chess/EdgeMatcher.ts:122-196 | a piece fits exactly when some piece in some orthogonal neighbour stack shows a partner of its facing edge at the candidate rotation, or at its own when none is given |
| EdgeMatcher.NoNeighboursNoFit | src/classes/chess/EdgeMatcher.ts:145-159 | with every orthogonal neighbour off the board or empty nothing fits and no piece is matched |
| EdgeMatcher.MatchingPiecesFromNeighbours | src/classes/chess/EdgeMatcher.ts:183-194 | the matched pieces are distinct, are exactly the neighbours named by the matches, and each sits in a consulted neighbour stack |
| EdgeMatcher.OnlyAboveConsulted | src/classes/chess/EdgeMatcher.ts:141-189 | when only the neighbour above holds pieces, checkFit sees only that stack's matches |
| EdgeMatcher.FitsBelowShapeTwo | src/classes/chess/EdgeMatcher.ts:122-196 | a shape-3 piece directly below a lone shape-2 piece, both at rotation 0 and with no other neighbours, fits, and the one matched piece is that neighbour |
| EdgeMatcher.KeepRotationsSpec | src/classes/chess/EdgeMatcher.ts:215-220 | filtering keeps exactly the rotations that pass, is empty exactly when none passes, and keeps increasing order |
| EdgeMatcher.FitSetMember | src/classes/chess/EdgeMatcher.ts:216-217 | a rotation is in the fit set exactly when checkFit at that rotation reports a fit |
| EdgeMatcher.GetValidRotations | src/classes/chess/EdgeMatcher.ts:207-223 | the loop returns the specification list of fitting rotations |
| EdgeMatcher.ValidRotationsSpec | src/classes/chess/EdgeMatcher.ts:207-223 | getValidRotations gives exactly the rotations at which checkFit reports a fit, in increasing order, at most four, and none when no neighbour holds a piece |
| EdgeMatcher.ArePositionsConnected | src/classes/chess/EdgeMatcher.ts:233-278 | the early returns and nested loops compute the quantified definition: adjacent, both cells non-empty and some pair of pieces shows partner edges |
| EdgeMatcher.ConnectedSymmetric | src/classes/chess/EdgeMatcher.ts:233-278 | connection is symmetric in the two positions |
| EdgeMatcher.ConnectedNeedsAdjacentPieces | src/classes/chess/EdgeMatcher.ts:243-258 | connected positions are orthogonally adjacent and both cells hold pieces |
| EdgeMatcher.CanMatchMatrix | src/classes/chess/EdgeMatcher.ts:37-39 | canMatch holds exactly for the EDGE_MATCH_MAP partner; it is symmetric and irreflexive, and each edge has one partner |
| EdgeMatcher.CanMatch | src/classes/chess/EdgeMatcher.ts:37-39 | whether two edges are partners; CanMatchMatrix states the whole relation, symmetric and irreflexive |
| EdgeMatcher.GetRotatedEdge | src/classes/chess/EdgeMatcher.ts:55-67 | the edge a rotated piece shows on a side; OriginalSideIsTurn and RotationsShowEachSideOnce state its meaning |
| EdgeMatcher.GetOppositeSide | src/classes/chess/EdgeMatcher.ts:76-84 | the opposite side; OppositeSideInvolution states that it is a fixed-point-free involution equal to a half turn |
| EdgeMatcher.NeighborPosition | src/classes/chess/EdgeMatcher.ts:93-110 | the neighbouring position in a direction; NeighborIsVectorStep states that it is one step of the direction's vector |
| EdgeMatcher.FitResult | src/classes/chess/EdgeMatcher.ts:122-196 | what checkFit returns; FitIff, NoNeighboursNoFit and MatchingPiecesFromNeighbours state its meaning, and CheckFit computes it |
| EdgeMatcher.ValidRotations | src/classes/chess/EdgeMatcher.ts:207-223 | what getValidRotations returns; ValidRotationsSpec states that it is exactly the fitting rotations in order |
| EdgeMatcher.Connected | src/classes/chess/EdgeMatcher.ts:233-278 | what arePositionsConnected returns; ConnectedSymmetric and ConnectedNeedsAdjacentPieces state its properties, and ArePositionsConnected computes it |
| MoveValidator.DistanceFacts | src/classes/chess/MoveValidator.ts:30-44 | both distances are zero exactly on equal positions and symmetric; Chebyshev ≤ Manhattan ≤ 2 · Chebyshev |
| MoveValidator.FindDirectionSpec | src/classes/chess/MoveValidator.ts:63-69 | the for-of search returns a listed direction with the wanted vector, and returns nothing exactly when no listed direction has it |
| MoveValidator.GetDirectionSpec | src/classes/chess/MoveValidator.ts:54-70 | getDirection is null exactly when the positions are equal; otherwise its direction's vector is the pair of signs of the differences |
| MoveValidator.SignDirection | src/types/chess/index.ts:84-93 | every non-zero sign pair is the vector of some direction |
| MoveValidator.PositionInDirectionSpec | src/classes/chess/MoveValidator.ts:107-117 | k unit steps end at Chebyshev distance k, on a line through the start, and getDirection recovers the direction |
| MoveValidator.GetDirectionAligned | src/classes/chess/MoveValidator.ts:54-70 | on an aligned pair of distinct positions, Chebyshev-distance many steps in getDirection's direction reach the target |
| MoveValidator.GetDirectionSignOnly | src/classes/chess/MoveValidator.ts:59-66 | from (4,4), getDirection sends (2,5) up-right although (2,5) lies on no line through (4,4) |
| MoveValidator.UnalignedNeverReached | src/classes/chess/MoveValidator.ts:88-94 | on an unaligned pair no number of steps along getDirection's direction reaches the target, so getPath's loop cannot end there |
| MoveValidator.GetPath | src/classes/chess/MoveValidator.ts:80-97 | on an aligned pair the while loop returns the walk of unit steps from the start to the target |
| MoveValidator.PathSpec | src/classes/chess/MoveValidator.ts:73-97 | the path has Chebyshev-distance many positions, is empty exactly when from == to, ends at `to`, never contains `from`, and its k-th position is k + 1 steps out |
| MoveValidator.PathSteps | src/classes/chess/MoveValidator.ts:88-94 | each position of the path is one direction vector past the previous one, the first one past `from` |
| MoveValidator.ValidateMoveReasons | src/classes/chess/MoveValidator.ts:128-207 | each rejection reason is given exactly when the earlier checks pass and its own fails; the straight-line rejection is never given |
| MoveValidator.ValidateMoveAccepts | src/classes/chess/MoveValidator.ts:128-207 | a move is accepted exactly when the piece is on the board, the target is in bounds, and either it stays put with a new rotation or it goes at most 3 cells (1 when turning) and fits at the candidate rotation |
| MoveValidator.InPlaceRotationAccepted | src/classes/chess/MoveValidator.ts:153-156 | any on-board piece, bird or not, may turn in place whatever its neighbours |
| MoveValidator.MatchesAlongIgnoresOwnCell | src/classes/chess/EdgeMatcher.ts:141-166 | checkFit's matches at a position do not depend on what is stacked at that position |
| MoveValidator.NoOccupancyCheck | src/classes/chess/MoveValidator.ts:192-197 | validateMove's verdict does not change when the target's stack is replaced, so a piece may land on an occupied cell |
| MoveValidator.CollectMovesToTarget | src/classes/chess/MoveValidator.ts:239-261 | the rotation loop appends exactly the specification moves for one target |
| MoveValidator.CollectMovesInDirection | src/classes/chess/MoveValidator.ts:231-262 | the steps loop appends exactly the specification moves for one direction |
| MoveValidator.GetPossibleMoves | src/classes/chess/MoveValidator.ts:217-266 | the triple loop returns the specification list of moves |
| MoveValidator.MovesToTargetSound | src/classes/chess/MoveValidator.ts:239-261 | every move to one target is one validateMove accepts, with a tried rotation, the rotation limit respected and needRotation set exactly when the rotation changes |
| MoveValidator.MovesToTargetComplete | src/classes/chess/MoveValidator.ts:239-261 | every tried rotation that the limit lets through and validateMove accepts gives a move |
| MoveValidator.MovesToTargetBound | src/classes/chess/MoveValidator.ts:239-245 | at most one move per tried rotation, and beyond the rotation limit only the current rotation can give one |
| MoveValidator.MovesInDirectionSound | src/classes/chess/MoveValidator.ts:231-237 | every move along a direction goes 1 to n steps that way to an in-bounds target |
| MoveValidator.MovesInDirectionComplete | src/classes/chess/MoveValidator.ts:231-237 | every move to an in-bounds target 1 to n steps along the direction is collected |
| MoveValidator.MovesInDirectionBound | src/classes/chess/MoveValidator.ts:231-245 | with distinct rotations: all of them at step 1, at most one per further step |
| MoveValidator.MovesAlongSound | src/classes/chess/MoveValidator.ts:230 | every move of the outer loop comes from one of the directions |
| MoveValidator.MovesAlongComplete | src/classes/chess/MoveValidator.ts:230 | every move along a listed direction is in the outer loop's result |
| MoveValidator.MovesAlongBound | src/classes/chess/MoveValidator.ts:230-263 | the outer loop yields at most (rotations + 2) moves per direction |
| MoveValidator.PossibleMovesSound | src/classes/chess/MoveValidator.ts:217-266 | every generated move passes validateMove with its rotation, starts at the piece, goes 1 to 3 cells along a line to an in-bounds target at Chebyshev distance `steps`, and turns only on single steps |
| MoveValidator.PossibleMovesComplete | src/classes/chess/MoveValidator.ts:217-266 | every target 1 to 3 steps along a direction that validateMove accepts with a tried rotation gives a move |
| MoveValidator.PossibleMovesBound | src/classes/chess/MoveValidator.ts:222-245 | no moves for an off-board piece; at most 48 moves; at most 24 without rotations, each keeping the current rotation |
| MoveValidator.DestinationsSpec | src/classes/chess/MoveValidator.ts:282-283 | the k-th destination is the target of the k-th move |
| MoveValidator.GetPossiblePositions | src/classes/chess/MoveValidator.ts:276-290 | the Map-based loop returns the first-seen distinct targets of all moves |
| MoveValidator.PossiblePositionsSpec | src/classes/chess/MoveValidator.ts:276-290 | the positions are distinct, are exactly the move targets, are no more than the moves, and come in first-seen order |
| MoveValidator.CanPieceMove | src/classes/chess/MoveValidator.ts:315-317 | canPieceMove holds exactly when getPossibleMoves with rotations is non-empty |
| MoveValidator.CanMoveIff | src/classes/chess/MoveValidator.ts:315-317 | a piece can move exactly when it is on the board and validateMove accepts some target 1 to 3 steps along some direction with some rotation |
| MoveValidator.GoalDistanceSpec | src/classes/chess/MoveValidator.ts:340-343 | the nearest-goal distance is infinite exactly for no goal rows, and otherwise is attained by a goal row and is at most every goal row's distance |
| MoveValidator.GetBestMove | src/classes/chess/MoveValidator.ts:328-351 | getBestMove returns null when there are no moves and otherwise the specification choice among them |
| MoveValidator.NearestMove | src/classes/chess/MoveValidator.ts:337-350 | the loop keeping the first strictly nearer move returns the specification choice |
| MoveValidator.BestOfMinimal | src/classes/chess/MoveValidator.ts:342-348 | no move is nearer a goal row than the chosen one |
| MoveValidator.BestOfFirst | src/classes/chess/MoveValidator.ts:337-350 | the chosen move is one of the moves and every move before it is farther, so it is the first nearest; with no goal rows it is the first move |
| MoveValidator.CalculateDistance | src/classes/chess/MoveValidator.ts:30-32 | the Manhattan distance; DistanceFacts relates it to the Chebyshev distance and to equality |
| MoveValidator.CalculateChebyshevDistance | src/classes/chess/MoveValidator.ts:42-44 | the Chebyshev distance; DistanceFacts relates it to the Manhattan distance and to equality |
| MoveValidator.GetDirection | src/classes/chess/MoveValidator.ts:54-70 | the direction of a move; GetDirectionSpec states the sign rule and GetDirectionSignOnly and GetDirectionAligned its consequences |
| MoveValidator.GetPositionInDirection | src/classes/chess/MoveValidator.ts:107-117 | a position some steps away; PositionInDirectionSpec states its distance and its direction |
| MoveValidator.Path | src/classes/chess/MoveValidator.ts:80-97 | what getPath returns; PathSpec and PathSteps state its length, end and steps, and GetPath computes it |
| MoveValidator.ValidateMove | src/classes/chess/MoveValidator.ts:128-207 | validateMove's verdict; ValidateMoveReasons and ValidateMoveAccepts state when each reason is given and when a move passes |
| MoveValidator.PossibleMoves | src/classes/chess/MoveValidator.ts:217-266 | what getPossibleMoves returns; PossibleMovesSound, PossibleMovesComplete and PossibleMovesBound state its meaning, and GetPossibleMoves computes it |
| MoveValidator.PossiblePositions | src/classes/chess/MoveValidator.ts:276-290 | what getPossiblePositions returns; PossiblePositionsSpec states its meaning, and GetPossiblePositions computes it |
| MoveValidator.GoalDistance | src/classes/chess/MoveValidator.ts:340-343 | the distance of a row to the nearest goal row, None for Infinity; GoalDistanceSpec states its meaning |
| MoveValidator.BestMove | src/classes/chess/MoveValidator.ts:328-351 | what getBestMove returns; BestOfMinimal and BestOfFirst state its choice, and GetBestMove computes it |
| ChessBoard.InitialCellsSpec | src/classes/chess/Board.ts:33-59 | a fresh board is size-by-size with empty stacks, every cell knows its position, and its zone markers say whether its row is a start or finish row of each player |
| ChessBoard.ShapedEqual | src/classes/chess/Board.ts:21-27 | two boards of the same size that differ only in their stacks and agree on every stack are the same board |
| ChessBoard.ShapedInGrid | src/classes/chess/Board.ts:78-103 | on a board of the given size, having a cell at a position is isValidPosition |
| ChessBoard.PlaceCellsSpec | src/classes/chess/Board.ts:133-145 | placing pushes the id on top of the stack at the position and changes no other stack; without a cell there it changes nothing |
| ChessBoard.RemoveCellsSpec | src/classes/chess/Board.ts:150-165 | removing deletes exactly the first entry with the id, keeps the order of the rest and changes no other stack; when the cell or the id is missing nothing changes |
| ChessBoard.SetStackSame | src/classes/chess/Board.ts:251 | writing back the stack a cell already holds changes nothing |
| ChessBoard.SetStackTwice | src/classes/chess/Board.ts:251 | of two writes to the same stack only the second counts |
| ChessBoard.PlaceThenRemove | src/classes/chess/Board.ts:133-165 | placing an id not yet in the stack and then removing it restores the board |
| ChessBoard.MoveCellsSpec | src/classes/chess/Board.ts:170-184 | a failed removal changes nothing; otherwise the id's first entry leaves `from` and the id goes on top of `to`, or back on top of `from` when `to` has no cell; no other stack changes |
| ChessBoard.MoveThenMoveBack | src/classes/chess/Board.ts:170-184 | moving the top id of `from` to a cell where it is absent and back again restores the board |
| ChessBoard.InitializeRow | src/classes/chess/Board.ts:37-53 | the inner loop builds one row of fresh cells |
| ChessBoard.InitializeBoard | src/classes/chess/Board.ts:33-59 | the nested loops build the fresh size-by-size board |
| ChessBoard.RowPiecesSpec | src/classes/chess/Board.ts:217-222 | an id is among a row's pieces exactly when it is in one of that row's stacks |
| ChessBoard.AllPiecesSpec | src/classes/chess/Board.ts:213-226 | an id is among all pieces exactly when it is in the stack of some cell of the board |
| ChessBoard.GridPiecesChange | src/classes/chess/Board.ts:213-226 | replacing one stack changes the count of each id among all pieces by its change in that stack |
| ChessBoard.PlaceCellsPieces | src/classes/chess/Board.ts:133-145 | placing adds exactly one entry for the id to the board's pieces when the position is on the board, and none otherwise |
| ChessBoard.RemoveCellsPieces | src/classes/chess/Board.ts:150-165 | a successful removal takes exactly one entry for the id off the board's pieces |
| ChessBoard.MoveCellsPieces | src/classes/chess/Board.ts:170-184 | moving neither creates nor destroys a piece, whether it lands, goes back or fails |
| ChessBoard.OwnedBySpec | src/classes/chess/Board.ts:231-233 | the owner filter keeps every entry of the player's pieces, as often as it occurs, drops every other piece, and is never longer |
| ChessBoard.ZoneCellsSpec | src/classes/chess/Board.ts:189-208 | the zone cells are exactly the cells whose row is a start (or finish) row of the player |
| ChessBoard.ZoneRowCellsSpec | src/classes/chess/Board.ts:193-204 | the zone cells of one row are that row's cells when the row is a zone row, and none otherwise |
| ChessBoard.Board.constructor | src/classes/chess/Board.ts:25-28 | a new board has the given size and the fresh grid |
| ChessBoard.Board.GetCell | src/classes/chess/Board.ts:78-83 | a cell is returned exactly for a valid position, and it is the cell at that position with its stack |
| ChessBoard.Board.GetPiecesAt | src/classes/chess/Board.ts:88-91 | the stack at the position, empty off the board |
| ChessBoard.Board.IsInStartZone | src/classes/chess/Board.ts:108-115 | on the board and in one of the player's start rows |
| ChessBoard.Board.IsInFinishZone | src/classes/chess/Board.ts:120-127 | on the board and in one of the player's finish rows |
| ChessBoard.Board.IsEmpty | src/classes/chess/Board.ts:238-241 | no piece at the position; true off the board |
| ChessBoard.Board.PlacePiece | src/classes/chess/Board.ts:133-145 | succeeds exactly on a valid position; the grid becomes the placed grid and the piece gets the position and the on-board flag |
| ChessBoard.Board.RemovePiece | src/classes/chess/Board.ts:150-165 | succeeds exactly when the cell exists and holds the id; the grid becomes the removed grid and the piece loses its position |
| ChessBoard.Board.MovePiece | src/classes/chess/Board.ts:170-184 | succeeds exactly when the removal succeeds and `to` is valid; the grid becomes the moved grid, and the piece is at `to`, back at `from`, or untouched when the removal failed |
| ChessBoard.Board.AppendZoneRow | src/classes/chess/Board.ts:193-204 | the inner loop appends one row's zone cells |
| ChessBoard.Board.GetCellsInZone | src/classes/chess/Board.ts:189-208 | the zone cells in row-major order |
| ChessBoard.Board.AppendRowPieces | src/classes/chess/Board.ts:217-222 | the inner loop appends one row's stacks |
| ChessBoard.Board.GetAllPieces | src/classes/chess/Board.ts:213-226 | every stacked id, row-major, bottom to top |
| ChessBoard.Board.GetPlayerPieces | src/classes/chess/Board.ts:231-233 | the player's entries among all pieces, in board order |
| ChessBoard.Board.ClearRow | src/classes/chess/Board.ts:248-253 | the inner loop empties every stack of one row and no other |
| ChessBoard.Board.Clear | src/classes/chess/Board.ts:246-255 | every stack is empty and the zone markers stay, so the board is a fresh one again |
| ChessBoard.Board.CopyRow | src/classes/chess/Board.ts:265-273 | the inner loop copies one row's stacks from the source and leaves the other rows alone |
| ChessBoard.Board.Clone | src/classes/chess/Board.ts:260-277 | a new, separate board of the same size with the same stacks and zone markers |
| ChessBoard.InitialCells | src/classes/chess/Board.ts:33-59 | the fresh grid; InitialCellsSpec states its shape, empty stacks and zone flags |
| ChessBoard.PlaceCells | src/classes/chess/Board.ts:133-145 | placePiece on the grid; PlaceCellsSpec and PlaceCellsPieces state its effect |
| ChessBoard.RemoveCells | src/classes/chess/Board.ts:150-165 | removePiece on the grid; RemoveCellsSpec and RemoveCellsPieces state its effect |
| ChessBoard.MoveCells | src/classes/chess/Board.ts:170-184 | movePiece on the grid; MoveCellsSpec, MoveCellsPieces and MoveThenMoveBack state its effect |
| ChessBoard.AllPieces | src/classes/chess/Board.ts:213-226 | what getAllPieces returns; AllPiecesSpec states its members |
| ChessBoard.OwnedBy | src/classes/chess/Board.ts:231-233 | getPlayerPieces' filter; OwnedBySpec states what it keeps |
| ChessBoard.ZoneCells | src/classes/chess/Board.ts:189-208 | what getCellsInZone returns; ZoneCellsSpec states which cells it holds |
| Engine.RotationIndex | src/classes/chess/GameEngine.ts:303-304 | indexOf of a rotation in [0, 90, 180, 270] finds it |
| Engine.RotationSteps | src/classes/chess/GameEngine.ts:301-307 | rotatePiece's step and undo's step undo each other, the step always changes the rotation, four steps are a full turn, and the step adds 90 modulo 360 |
| Engine.NewPieceSpec | src/classes/chess/GameEngine.ts:81-129 | the i-th created piece belongs to the player, is off the board, has shape 4, 3, 2, 1 (player 1) or 1, 2, 3, 4 (player 2) and 1 past index 3, rotation 180 (player 1) or 0 (player 2), and is a bird exactly when its shape is 4 |
| Engine.NewPieceIdsDistinct | src/classes/chess/GameEngine.ts:94-97 | two created pieces of different players or indices have different ids |
| Engine.ArenaOfSpec | src/classes/chess/GameEngine.ts:49-50 | with distinct ids, the id-keyed map of a piece list holds exactly the listed ids, each with its own record |
| Engine.AllNewPiecesDistinct | src/classes/chess/GameEngine.ts:49-50 | the ids of both players' created pieces are pairwise distinct |
| Engine.InvariantWellFormed | src/constants/chess/pieces.ts:116-122 | under the engine invariant every stacked piece has a shape getPieceShape accepts |
| Engine.Retouch | src/classes/chess/Board.ts:133-184 | a board step that adds or removes only one piece, with a consistent record for it, keeps the board invariant |
| Engine.InitialState | src/classes/chess/GameEngine.ts:44-73 | the new state's lists hold piecesPerPlayer known pieces each |
| Engine.InitialArenaEntries | src/classes/chess/GameEngine.ts:49-50 | every created piece is in the initial arena under its id |
| Engine.InitialArenaRecords | src/classes/chess/GameEngine.ts:94-105 | every initial record sits under its own id, has a valid shape and is off the board |
| Engine.IdsOfPlayerPieces | src/classes/chess/GameEngine.ts:94-105 | the player list holds the created ids in creation order |
| Engine.InitialStateSpec | src/classes/chess/GameEngine.ts:31-73 | the initial state on a fresh board satisfies the engine invariant, each list holds piecesPerPlayer pieces, all off the board, in creation order |
| Engine.CountersSeparate | src/classes/chess/GameEngine.ts:213-226 | writing one player's stats or pass count leaves the other player's alone |
| Engine.SwitchedTurn | src/classes/chess/GameEngine.ts:240-247 | the other player is to move, the turn counter rises by one, and nothing else changes |
| Engine.WinChecked | src/classes/chess/GameEngine.ts:365-388 | player 1 wins when all its pieces are on the board in its finish rows, checked first; else player 2 under the same rule; else the winner stays; nothing else changes |
| Engine.PlaceOnBoardKeeps | src/classes/chess/Board.ts:133-145 | placing a piece keeps the board invariant and the piece's identity |
| Engine.RemoveFromBoardKeeps | src/classes/chess/Board.ts:150-165 | removing a piece keeps the board invariant and the piece's identity |
| Engine.MoveOnBoardKeeps | src/classes/chess/Board.ts:170-184 | moving a piece keeps the board invariant and the piece's identity |
| Engine.TurnKeeps | src/classes/chess/GameEngine.ts:203 | turning a piece changes no stack and keeps the board invariant |
| Engine.Credited | src/classes/chess/GameEngine.ts:213-226 | crediting a move changes only the stats and pass counts |
| Engine.MoveOutcome | src/classes/chess/GameEngine.ts:167-235 | executeMove keeps the set of pieces and grows the history by exactly the move when it succeeds, and not at all otherwise |
| Engine.Charged | src/classes/chess/GameEngine.ts:309-324 | charging an undo changes only the stats |
| Engine.MoveRefused | src/classes/chess/GameEngine.ts:176-187 | a move validateMove rejects, or one with the opponent's piece, leaves state and board unchanged |
| Engine.MoveSucceeds | src/classes/chess/GameEngine.ts:167-210 | a move succeeds exactly when it is valid, the piece is the current player's and the board step succeeds; then the grid is the board step's, the piece is on `to` with the requested rotation, the history has grown by the move and no other piece changed |
| Engine.MoveCounters | src/classes/chess/GameEngine.ts:212-232 | after a successful move the mover has one more move, no undo streak and no passes, the opponent's counters are untouched, the turn has passed, and the winner is the win check's verdict |
| Engine.MoveConservesPieces | src/classes/chess/GameEngine.ts:189-199 | a successful move with a `from` keeps the multiset of pieces on the board; an initial placement adds the piece once |
| Engine.StepKeeps | src/classes/chess/GameEngine.ts:189-199 | a board step on a known piece keeps the engine invariant |
| Engine.MoveStepKeeps | src/classes/chess/GameEngine.ts:189-204 | executeMove's board step keeps the engine invariant, and so does the turn after it |
| Engine.MoveKeeps | src/classes/chess/GameEngine.ts:167-235 | whatever executeMove does, the engine invariant still holds |
| Engine.GeneratedMoveSucceeds | src/classes/chess/GameEngine.ts:448-450 | every move the generator offers for a piece of the current player is one executeMove carries out |
| Engine.UndoSpec | src/classes/chess/GameEngine.ts:283-330 | undo fails, changing nothing, exactly on an empty history; otherwise it pops the last move, applies the reverse board step and the predecessor-rotation rule to that piece only, charges the player whose turn it is, and passes the turn |
| Engine.UndoKeeps | src/classes/chess/GameEngine.ts:283-330 | whatever undo does, the engine invariant still holds |
| Engine.MoveThenUndo | src/classes/chess/GameEngine.ts:167-330 | undo after a successful move restores the grid, the history and the piece's position, with the same player to move two turns later; the rotation comes back only as the predecessor of newRotation, the mover keeps the move and the opponent is charged the undo |
| Engine.UndoRotationExact | src/classes/chess/GameEngine.ts:301-307 | undo returns the old rotation exactly when the move turned the piece one step clockwise; a turn from 0 to 180 comes back as 90 |
| Engine.PassSpec | src/classes/chess/GameEngine.ts:252-278 | pass is refused, changing nothing, exactly when the current player has passed already and a second pass is not allowed; otherwise that player's passes and total passes rise by one, the undo streak resets and the turn passes, nothing else changing |
| Engine.PassesStayBounded | src/classes/chess/GameEngine.ts:252-278 | without allowPassTwice every operation keeps each pass count at most 1 |
| Engine.RotateSpec | src/classes/chess/GameEngine.ts:337-360 | rotatePiece is refused, changing nothing, unless the piece is a bird of the current player; otherwise its rotation advances by 90 modulo 360 and the turn passes, nothing else changing |
| Engine.RotateKeeps | src/classes/chess/GameEngine.ts:337-360 | rotatePiece keeps the engine invariant |
| Engine.PassKeeps | src/classes/chess/GameEngine.ts:252-278 | pass keeps the engine invariant |
| Engine.WinnerPersists | src/classes/chess/GameEngine.ts:365-388 | pass, undo and rotatePiece never change the winner, and a move never clears it |
| Engine.PlaceRow | src/classes/chess/GameEngine.ts:153-160 | the inner placement loop keeps the set of pieces and never moves the index backwards or past the list |
| Engine.PlaceRows | src/classes/chess/GameEngine.ts:149-162 | placeInitialPieces keeps the set of pieces |
| Engine.PlaceRowCount | src/classes/chess/GameEngine.ts:153-159 | one row advances the index by the columns left, or up to the end of the list, and leaves every other piece alone |
| Engine.PlaceRowLater | src/classes/chess/GameEngine.ts:153-159 | a piece not among those still to place is untouched by the rest of the row |
| Engine.PlaceRowFirst | src/classes/chess/GameEngine.ts:154-158 | the next piece goes to the current column when that cell exists, and is untouched otherwise |
| Engine.PlaceRowSpec | src/classes/chess/GameEngine.ts:153-159 | the j-th piece of a row goes to column col + j when that cell exists, and is untouched otherwise |
| Engine.PlaceRowKeeps | src/classes/chess/GameEngine.ts:153-159 | a placement row keeps the board invariant and every piece's identity |
| Engine.PlaceRowsKeeps | src/classes/chess/GameEngine.ts:149-162 | placeInitialPieces keeps the board invariant and every piece's identity |
| Engine.StartKeeps | src/classes/chess/GameEngine.ts:134-144 | startGame reports success, keeps the engine invariant and changes nothing but the pieces and the grid |
| Engine.PlaceOneRow | src/classes/chess/GameEngine.ts:152-161 | with a single start row placeInitialPieces is its inner loop |
| Engine.FirstRow | src/classes/chess/GameEngine.ts:150-159 | from column 0 with the index at 0, piece i goes to column i when that cell exists |
| Engine.RowUntouched | src/classes/chess/GameEngine.ts:149-162 | pieces not in the list are untouched by placeInitialPieces |
| Engine.StartPlacement | src/classes/chess/GameEngine.ts:134-162 | startGame puts player 1's piece i in row 3, column i, and player 2's piece i in row 0, column i, whenever that cell exists, without consulting any fit; the others stay put |
| Engine.InitialListsDistinct | src/classes/chess/GameEngine.ts:49-50 | the two lists of a new game hold distinct ids |
| Engine.PlayerIdsDistinct | src/classes/chess/GameEngine.ts:94-97 | one player's created ids are pairwise distinct |
| Engine.MovesOfSpec | src/classes/chess/GameEngine.ts:428-443 | the collected moves are exactly the generator's moves of the listed on-board pieces, each naming a listed piece, at most 48 per piece |
| Engine.CurrentMovesSucceed | src/classes/chess/GameEngine.ts:428-443 | every move offered to the current player names one of its pieces and is one executeMove carries out |
| Engine.CreatePlayerPieces | src/classes/chess/GameEngine.ts:81-109 | the loop makes the player's pieces in creation order |
| Engine.InitializeGameState | src/classes/chess/GameEngine.ts:44-73 | returns the initial state for the configuration |
| Engine.GameEngine.constructor | src/classes/chess/GameEngine.ts:31-39 | a fresh board of the configured size and the initial state, satisfying the engine invariant |
| Engine.GameEngine.PlaceRowPieces | src/classes/chess/GameEngine.ts:153-160 | the loop leaves the grid, the pieces and the index as the row function says |
| Engine.GameEngine.PlaceInitialPieces | src/classes/chess/GameEngine.ts:149-162 | the loops leave the grid and the pieces as the placement function says |
| Engine.GameEngine.StartGame | src/classes/chess/GameEngine.ts:134-144 | follows the startGame outcome and keeps the engine invariant |
| Engine.GameEngine.SwitchTurn | src/classes/chess/GameEngine.ts:240-247 | the state becomes the switched state and the invariant is kept |
| Engine.GameEngine.CheckWinCondition | src/classes/chess/GameEngine.ts:365-388 | the state becomes the win-checked state |
| Engine.GameEngine.RecordMove | src/classes/chess/GameEngine.ts:201-232 | rotation, history, credit, win check and turn switch in the source's order |
| Engine.GameEngine.ExecuteMove | src/classes/chess/GameEngine.ts:167-235 | follows the executeMove outcome on state and board and keeps the engine invariant |
| Engine.GameEngine.Pass | src/classes/chess/GameEngine.ts:252-278 | follows the pass outcome with the configured allowPassTwice and keeps the invariant |
| Engine.GameEngine.Undo | src/classes/chess/GameEngine.ts:283-330 | follows the undo outcome on state and board and keeps the invariant |
| Engine.GameEngine.RotatePiece | src/classes/chess/GameEngine.ts:337-360 | follows the rotatePiece outcome and keeps the invariant |
| Engine.GameEngine.GetPossibleMovesForCurrentPlayer | src/classes/chess/GameEngine.ts:428-443 | the loop returns the generator's moves of the current player's on-board pieces, in list order |
| Engine.GameEngine.GetPossibleMovesForPiece | src/classes/chess/GameEngine.ts:448-450 | the generator's moves with rotations for the given piece |
| Engine.GameEngine.CanCurrentPlayerMove | src/classes/chess/GameEngine.ts:455-457 | true exactly when some on-board piece of the current player has a generated move |
| Engine.GameEngine.Reset | src/classes/chess/GameEngine.ts:462-465 | the board is fresh again and the state is the initial one |
| Engine.NextRotation | src/classes/chess/GameEngine.ts:351-354 | rotatePiece's step; RotationSteps states what it does and that it inverts undo's step |
| Engine.PrevRotation | src/classes/chess/GameEngine.ts:303-306 | undo's step; RotationSteps and UndoRotationExact state what it does and when it restores a rotation |
| Engine.ShapeFor | src/classes/chess/GameEngine.ts:86-95 | the shape of the i-th created piece; NewPieceSpec states it |
| Engine.InitialRotation | src/classes/chess/GameEngine.ts:115-129 | the starting rotation of a created piece; NewPieceSpec states it |
| Engine.NewPiece | src/classes/chess/GameEngine.ts:94-105 | the i-th created piece; NewPieceSpec and NewPieceIdsDistinct state its fields and its unique id |
| Engine.AllFinished | src/classes/chess/GameEngine.ts:367-371 | checkWinCondition's every-test; WinChecked states the win rule through it |
| Engine.MoveStep | src/classes/chess/GameEngine.ts:189-199 | executeMove's board step; MoveSucceeds, MoveConservesPieces and MoveStepKeeps state its effect |
| Engine.PassOutcome | src/classes/chess/GameEngine.ts:252-278 | what pass does; PassSpec states it |
| Engine.UndoStep | src/classes/chess/GameEngine.ts:293-298 | undo's board step; UndoSpec and MoveThenUndo state its effect |
| Engine.UndoOutcome | src/classes/chess/GameEngine.ts:283-330 | what undo does; UndoSpec, UndoKeeps and MoveThenUndo state it |
| Engine.RotateOutcome | src/classes/chess/GameEngine.ts:337-360 | what rotatePiece does; RotateSpec and RotateKeeps state it |
| Engine.StartOutcome | src/classes/chess/GameEngine.ts:134-144 | what startGame does; StartKeeps and StartPlacement state it |
| Engine.MovesOf | src/classes/chess/GameEngine.ts:428-443 | the moves collected for a list of pieces; MovesOfSpec and CurrentMovesSucceed state them |
| Engine.GameEngine.GetGameState | src/classes/chess/GameEngine.ts:393-395 | a read of the state field, without a contract |
| Engine.GameEngine.GetBoard | src/classes/chess/GameEngine.ts:400-402 | a read of the board field, without a contract |
| Engine.GameEngine.GetCurrentPlayer | src/classes/chess/GameEngine.ts:407-409 | a read of the current player, without a contract |
| Engine.GameEngine.GetWinner | src/classes/chess/GameEngine.ts:414-416 | a read of the winner, without a contract |
| Engine.GameEngine.IsGameOver | src/classes/chess/GameEngine.ts:421-423 | whether a winner is set, without a contract |
| Puzzle.InitialSpec | src/classes/PuzzleBoard.ts:25-43 | a new board has size * size empty drop cells numbered row-major, pieces 1..4 in the tray, status idle, and satisfies the back-reference invariant |
| Puzzle.OneCellPerPiece | src/classes/PuzzleBoard.ts:69-97 | under the invariant no piece stands in two cells |
| Puzzle.TrayIffNoCell | src/classes/PuzzleBoard.ts:102-114 | under the invariant a piece is in the tray exactly when no cell holds it |
| Puzzle.FindPiece | src/classes/PuzzleBoard.ts:70 | finds the first piece with the id, and none exactly when no piece has it |
| Puzzle.FindKnown | src/classes/PuzzleBoard.ts:70-75 | under the invariant exactly the ids 1..4 are found, id at index id - 1 |
| Puzzle.Available | src/classes/PuzzleBoard.ts:62-64 | the result holds exactly the pieces in the tray |
| Puzzle.AvailableSpec | src/classes/PuzzleBoard.ts:62-64 | a piece is offered as available exactly when no cell holds it |
| Puzzle.WinChecked | src/classes/PuzzleBoard.ts:132-146 | checkWinCondition changes only the status |
| Puzzle.WonMeansSolved | src/classes/PuzzleBoard.ts:132-146 | on a board of at least four cells the top row is complete exactly when piece k + 1 stands in cell k for k = 0..3, and a won board has every piece placed |
| Puzzle.StatusSpec | src/classes/PuzzleBoard.ts:132-146 | won exactly on a complete top row; playing exactly when it is not and every piece is placed; idle otherwise |
| Puzzle.RemoveOutcome | src/classes/PuzzleBoard.ts:102-114 | removePiece leaves only references to existing pieces |
| Puzzle.RemoveSpec | src/classes/PuzzleBoard.ts:102-114 | removePiece fails, changing nothing, exactly on a missing or empty cell; otherwise only that cell is emptied and its piece sent to the tray, the status is not rechecked, and the invariant holds |
| Puzzle.Cleared | src/classes/PuzzleBoard.ts:78-88 | clearing keeps the sizes, the status and the references valid |
| Puzzle.ClearedSpec | src/classes/PuzzleBoard.ts:78-88 | after the first two steps of placePiece no cell holds the piece, the target cell and the piece's former cell are empty, the former occupant is in the tray and all else is as before |
| Puzzle.PlaceOutcome | src/classes/PuzzleBoard.ts:69-97 | placePiece leaves only references to existing pieces |
| Puzzle.PlaceRefused | src/classes/PuzzleBoard.ts:69-75 | under the invariant placePiece fails exactly for an id outside 1..4 or a missing cell, and then changes nothing |
| Puzzle.PlaceSpec | src/classes/PuzzleBoard.ts:69-97 | after a successful placePiece the cell holds the piece and the piece records the cell; a displaced occupant is in the tray; the piece's former cell is empty; every other cell and piece is unchanged; the status is the rechecked one |
| Puzzle.PlacedConsistent | src/classes/PuzzleBoard.ts:90-96 | dropping a piece no cell holds on an empty cell restores the invariant |
| Puzzle.PlaceExtendsSolved | src/classes/PuzzleBoard.ts:69-97 | placing piece j + 1 in cell j succeeds, keeps pieces 1..j in place, and wins when j = 3 |
| Puzzle.PlacingInOrderWins | src/classes/PuzzleBoard.ts:69-146 | from any consistent state of at least four cells, placing pieces 1..4 in cells 0..3 in order wins |
| Puzzle.PlaceKeeps | src/classes/PuzzleBoard.ts:69-97 | placePiece keeps the invariant whether or not it succeeds |
| Puzzle.PlaceInPlace | src/classes/PuzzleBoard.ts:69-97 | placing a piece on the cell it already holds succeeds and changes neither cells nor pieces |
| Puzzle.MoveOutcome | src/classes/PuzzleBoard.ts:119-127 | movePiece leaves only references to existing pieces |
| Puzzle.MoveSpec | src/classes/PuzzleBoard.ts:119-127 | movePiece fails, changing nothing, from a missing or empty cell; otherwise it is placePiece of the cell's piece, succeeding exactly when the target cell exists; the invariant holds |
| Puzzle.PuzzleBoard.constructor | src/classes/PuzzleBoard.ts:13-20 | a fresh board of the given size in its initial state, satisfying the invariant |
| Puzzle.PuzzleBoard.CheckWinCondition | src/classes/PuzzleBoard.ts:132-146 | the fields become the win-checked state |
| Puzzle.PuzzleBoard.RemovePiece | src/classes/PuzzleBoard.ts:102-114 | follows removePiece's outcome and keeps the invariant |
| Puzzle.PuzzleBoard.PlacePiece | src/classes/PuzzleBoard.ts:69-97 | follows placePiece's outcome, writing through the piece objects, and keeps the invariant |
| Puzzle.PuzzleBoard.MovePiece | src/classes/PuzzleBoard.ts:119-127 | follows movePiece's outcome and keeps the invariant |
| Puzzle.PuzzleBoard.Reset | src/classes/PuzzleBoard.ts:158-162 | a fresh board and tray of the same size, status idle |
| Puzzle.PuzzleBoard.GetAvailablePieces | src/classes/PuzzleBoard.ts:62-64 | exactly the pieces in the tray |
| Puzzle.PuzzleBoard.GetPieceAt | src/classes/PuzzleBoard.ts:167-169 | none exactly for a missing or empty cell; under the invariant a returned piece is placed at that cell |
| Puzzle.InitialState | src/classes/PuzzleBoard.ts:25-43 | the fields of a new board; InitialSpec states them |
| Puzzle.TopRowComplete | src/classes/PuzzleBoard.ts:134-137 | the top-row test; WonMeansSolved and StatusSpec state its meaning |
| Puzzle.PuzzleBoard.GetBoard | src/classes/PuzzleBoard.ts:48-50 | a read of the cells, without a contract |
| Puzzle.PuzzleBoard.GetPieces | src/classes/PuzzleBoard.ts:55-57 | a read of the pieces, without a contract |
| Puzzle.PuzzleBoard.GetStatus | src/classes/PuzzleBoard.ts:151-153 | a read of the status, without a contract |
| Puzzle.PuzzleBoard.GetBoardSize | src/classes/PuzzleBoard.ts:174-176 | a read of the size, without a contract |

## Left out

- The Vue components and composables are not part of this model: animation, interaction, debug settings and the game-state hook. User interface only.
- `PuzzleGame.ts`, the router and `demo.ts` are not part of this model. They hold timers, routing and a console demonstration around the modelled classes.
- `Date.now()` timestamps on moves and `gameStartTime` are left out. Clocks are outside the model, and no decision depends on them.
- Console logging and `Board.print`/`toArray` are left out. They are output only.
- The `mode` and `threatInfo` fields of the game state, and the `svgPath` and `name` of the piece shapes, are left out. Nothing in the core reads them.
- The unused `distance` local in `executeMove` (src/classes/chess/GameEngine.ts:171-174) is left out. It has no effect.
- Engine.GameEngine.constructor takes a complete configuration. The source merges a `Partial` one over its defaults, and the board's default size argument of 4 is a constant of the model.
- `getGameState` returns a shallow copy that shares piece objects with the engine. Here pieces are values in an arena, so the model captures no aliasing between a returned state and the engine.
- `Board.clone` also copies each piece object (src/classes/chess/Board.ts:268-270). The model's cells hold only ids, and the pieces are values in the caller's arena, so ChessBoard.Board.Clone copies the stacks and nothing is lost.
- `Board.getSize`, `getCells` and `isValidPosition` are field reads and the `IsValidPosition` predicate. They have no members of their own.
- `getValidRotationsAtPosition` is left out. It is a one-line delegate to `getValidRotations`, which is modelled.
- The throw for an unknown shape in `getPieceShape` becomes a precondition. Every piece the engine creates has a known shape, which the invariant records.
- `GameConfig.maxMoveSteps` and `rotateStepLimit` are carried but not used. The source never reads them.
- The puzzle's getters `getBoard`, `getPieces`, `getStatus` and `getBoardSize` are plain field reads without contracts.
- MoveValidator.GetPath requires the two positions to lie on one row, column or diagonal. For other positions the source loop never reaches `to` and does not terminate.
