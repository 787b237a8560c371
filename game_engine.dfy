/**
 * The turn state machine (src/classes/chess/GameEngine.ts): piece creation, the opening
 * placement, executing, passing and undoing moves, bird rotation, win detection and reset.
 *
 * Every operation is first defined as a function from the game state and the board grid to
 * an Outcome, and the properties the engine promises are proved about those functions. The
 * class GameEngine keeps the state and a Board object and is proved to follow them.
 */
module Engine {
  import opened Util
  import opened ChessTypes
  import opened Pieces
  import opened BoardConstants
  import opened EdgeMatcher
  import opened MoveValidator
  import opened ChessBoard

  // ---------------------------------------------------------------- rotation steps

  /** The position of a rotation in [0, 90, 180, 270] (rotations.indexOf). */
  function RotationIndex(r: Rotation): (i: nat)
    ensures i < 4 && AllRotations[i] == r
  {
    r / 90
  }

  /** rotatePiece's step: the next rotation clockwise, 270 wrapping to 0. */
  function NextRotation(r: Rotation): Rotation {
    AllRotations[(RotationIndex(r) + 1) % 4]
  }

  /** undo's step: the previous rotation, 0 wrapping to 270. */
  function PrevRotation(r: Rotation): Rotation {
    AllRotations[(RotationIndex(r) - 1 + 4) % 4]
  }

  /** The two steps undo each other, and four steps are the full turn 0 -> 90 -> 180 -> 270 -> 0. */
  lemma RotationSteps(r: Rotation)
    ensures PrevRotation(NextRotation(r)) == r && NextRotation(PrevRotation(r)) == r
    ensures NextRotation(r) != r
    ensures NextRotation(NextRotation(NextRotation(NextRotation(r)))) == r
    ensures NextRotation(r) == (r + 90) % 360
  {
    if r == 0 {
      assert NextRotation(r) == 90 && PrevRotation(r) == 270;
    } else if r == 90 {
      assert NextRotation(r) == 180 && PrevRotation(r) == 0;
    } else if r == 180 {
      assert NextRotation(r) == 270 && PrevRotation(r) == 90;
    } else {
      assert NextRotation(r) == 0 && PrevRotation(r) == 180;
    }
  }

  // ---------------------------------------------------------------- creating the pieces

  /** JavaScript's `table[i] || fallback` on a table of numbers: the fallback when the entry is missing or 0. */
  function OrElse(table: seq<nat>, i: nat, fallback: nat): nat {
    if i < |table| && table[i] != 0 then table[i] else fallback
  }

  /** The same on a table of rotations. */
  function RotationOrElse(table: seq<Rotation>, i: nat, fallback: Rotation): Rotation {
    if i < |table| && table[i] != 0 then table[i] else fallback
  }

  /** `shapeOrder[i] || 1`: player 1 takes shapes 4, 3, 2, 1 and player 2 shapes 1, 2, 3, 4. */
  function ShapeFor(player: Player, i: nat): nat {
    OrElse(if player == Player1 then [4, 3, 2, 1] else [1, 2, 3, 4], i, 1)
  }

  /** getInitialRotation: the per-index tables with their `||` fallbacks. */
  function InitialRotation(player: Player, index: nat): Rotation {
    if player == Player2 then RotationOrElse([0, 0, 0, 0], index, 0)
    else RotationOrElse([180, 180, 180, 180], index, 180)
  }

  /** The i-th piece createPlayerPieces makes: off the board, a bird iff its shape is 4. */
  function NewPiece(player: Player, i: nat): ChessPiece {
    var shapeId := ShapeFor(player, i);
    ChessPiece(GeneratePieceId(player, shapeId, i), player, shapeId, InitialRotation(player, i),
               None, false, shapeId == 4)
  }

  /** The first n pieces of the player. */
  function PlayerPieces(player: Player, n: nat): seq<ChessPiece> {
    seq(n, i requires 0 <= i < n => NewPiece(player, i))
  }

  /**
   * The pieces in creation order: shapes 4, 3, 2, 1 for player 1 and 1, 2, 3, 4 for player 2,
   * then shape 1; rotation 180 for player 1 and 0 for player 2; all off the board; birds
   * exactly the shape-4 pieces.
   */
  lemma NewPieceSpec(player: Player, i: nat)
    ensures var piece := NewPiece(player, i);
      piece.player == player && piece.position == None && !piece.isOnBoard &&
      IsValidShapeId(piece.shapeId) &&
      piece.shapeId == (if i >= 4 then 1 else if player == Player1 then 4 - i else i + 1) &&
      piece.rotation == (if player == Player1 then 180 else 0) &&
      (piece.isBird <==> piece.shapeId == 4)
  {
  }

  /** No two created pieces share an id, within one player or across the two. */
  lemma NewPieceIdsDistinct(p1: Player, i1: nat, p2: Player, i2: nat)
    requires p1 != p2 || i1 != i2
    ensures NewPiece(p1, i1).id != NewPiece(p2, i2).id
  {
    if NewPiece(p1, i1).id == NewPiece(p2, i2).id {
      GeneratePieceIdInjective(p1, ShapeFor(p1, i1), i1, p2, ShapeFor(p2, i2), i2);
    }
  }

  lemma PlayerPiecesStep(player: Player, n: nat)
    ensures PlayerPieces(player, n + 1) == PlayerPieces(player, n) + [NewPiece(player, n)]
  {
  }

  /** The ids of a list of pieces. */
  function IdsOf(pieces: seq<ChessPiece>): seq<PieceId> {
    seq(|pieces|, i requires 0 <= i < |pieces| => pieces[i].id)
  }

  /** The pieces as a map from id, later pieces overriding earlier ones with the same id. */
  function ArenaOf(pieces: seq<ChessPiece>): Arena {
    if pieces == [] then map[]
    else ArenaOf(pieces[..|pieces| - 1])[pieces[|pieces| - 1].id := pieces[|pieces| - 1]]
  }

  /** Without repeated ids the map holds exactly the pieces, each under its own id. */
  lemma {:induction false} ArenaOfSpec(pieces: seq<ChessPiece>)
    requires NoDuplicates(IdsOf(pieces))
    ensures forall id :: id in ArenaOf(pieces) <==> id in IdsOf(pieces)
    ensures forall i :: 0 <= i < |pieces| ==> pieces[i].id in ArenaOf(pieces) && ArenaOf(pieces)[pieces[i].id] == pieces[i]
  {
    if pieces != [] {
      var n := |pieces| - 1;
      var init, last := pieces[..n], pieces[n];
      assert IdsOf(init) == IdsOf(pieces)[..n];
      assert IdsOf(pieces) == IdsOf(init) + [last.id];
      ArenaOfSpec(init);
      var m := ArenaOf(pieces);
      assert m == ArenaOf(init)[last.id := last];
      forall id ensures id in m <==> id in IdsOf(pieces) {
        assert id in IdsOf(pieces) <==> id in IdsOf(init) || id == last.id;
      }
      forall i | 0 <= i < |pieces| ensures pieces[i].id in m && m[pieces[i].id] == pieces[i] {
        if i < n {
          assert IdsOf(pieces)[i] == init[i].id && IdsOf(pieces)[n] == last.id;
          assert init[i] == pieces[i];
        }
      }
    }
  }

  /** All pieces of both players, player 1's first. */
  function AllNewPieces(n: nat): seq<ChessPiece> {
    PlayerPieces(Player1, n) + PlayerPieces(Player2, n)
  }

  /** The ids of the created pieces are pairwise distinct. */
  lemma AllNewPiecesDistinct(n: nat)
    ensures NoDuplicates(IdsOf(AllNewPieces(n)))
  {
    var ps := AllNewPieces(n);
    var ids := IdsOf(ps);
    forall i, j | 0 <= i < j < |ids| ensures ids[i] != ids[j] {
      var pi := if i < n then Player1 else Player2;
      var pj := if j < n then Player1 else Player2;
      var ki := if i < n then i else i - n;
      var kj := if j < n then j else j - n;
      assert ps[i] == NewPiece(pi, ki) && ps[j] == NewPiece(pj, kj);
      NewPieceIdsDistinct(pi, ki, pj, kj);
    }
  }

  // ---------------------------------------------------------------- the engine invariant

  /** Each record sits under its own id, has a drawable shape, and is on the board exactly when it has a position. */
  predicate PieceTable(arena: Arena) {
    forall id :: id in arena ==>
      arena[id].id == id && IsValidShapeId(arena[id].shapeId) &&
      (arena[id].isOnBoard <==> arena[id].position.Some?)
  }

  /** Every stacked id names a piece of the arena. */
  ghost predicate StacksKnown(cells: Grid, arena: Arena) {
    forall p, x :: x in StackAt(cells, p) ==> x in arena
  }

  /** A placed piece is in the stack of the cell it records. */
  predicate Backed(cells: Grid, arena: Arena) {
    forall id :: id in arena && arena[id].position.Some? ==> id in StackAt(cells, arena[id].position.value)
  }

  /** What the board and the pieces keep between operations. */
  ghost predicate BoardInvariant(cells: Grid, arena: Arena, size: nat) {
    Shaped(cells, size) && PieceTable(arena) && StacksKnown(cells, arena) && Backed(cells, arena)
  }

  /** A player's list names pieces of that player. */
  predicate Owns(arena: Arena, ids: seq<PieceId>, player: Player) {
    forall i :: 0 <= i < |ids| ==> ids[i] in arena && arena[ids[i]].player == player
  }

  /** The recorded moves name pieces of the arena. */
  predicate HistoryKnown(history: seq<Move>, arena: Arena) {
    forall i :: 0 <= i < |history| ==> history[i].pieceId in arena
  }

  /** The engine invariant: it holds of the initial state and every operation keeps it. */
  ghost predicate Invariant(st: GameState, cells: Grid, size: nat) {
    BoardInvariant(cells, st.pieces, size) && WellFormed(cells, st.pieces) &&
    Owns(st.pieces, st.player1Pieces, Player1) && Owns(st.pieces, st.player2Pieces, Player2) &&
    HistoryKnown(st.moveHistory, st.pieces)
  }

  /** The arena the validator needs: every stacked id has a shape getPieceShape accepts. */
  lemma InvariantWellFormed(cells: Grid, arena: Arena, size: nat)
    requires BoardInvariant(cells, arena, size)
    ensures WellFormed(cells, arena)
  {
    forall r, c | 0 <= r < |cells| && 0 <= c < |cells[r]| ensures KnownIds(cells[r][c].pieces, arena) {
      var s := cells[r][c].pieces;
      assert s == StackAt(cells, Position(r, c));
      forall k | 0 <= k < |s| ensures s[k] in arena && IsValidShapeId(arena[s[k]].shapeId) {
        assert s[k] in StackAt(cells, Position(r, c));
      }
    }
  }

  // ---------------------------------------------------------------- what the board primitives keep

  /** The new grid holds no id the old did not, except `id`, in any cell. */
  ghost predicate AddsOnly(g: Grid, g2: Grid, id: PieceId) {
    forall q, x :: x in StackAt(g2, q) ==> x == id || x in StackAt(g, q)
  }

  /** The new grid still holds every other id where the old one did. */
  ghost predicate KeepsOthers(g: Grid, g2: Grid, id: PieceId) {
    forall q, x :: x != id && x in StackAt(g, q) ==> x in StackAt(g2, q)
  }

  lemma PlaceCellsFrame(g: Grid, size: nat, id: PieceId, p: Position)
    requires Shaped(g, size)
    ensures Shaped(PlaceCells(g, id, p), size)
    ensures AddsOnly(g, PlaceCells(g, id, p), id) && KeepsOthers(g, PlaceCells(g, id, p), id)
  {
    PlaceCellsSpec(g, id, p);
    if InGrid(g, p) {
      SetStackShaped(g, size, p, StackAt(g, p) + [id]);
    }
  }

  lemma RemoveCellsFrame(g: Grid, size: nat, id: PieceId, p: Position)
    requires Shaped(g, size)
    ensures Shaped(RemoveCells(g, id, p), size)
    ensures AddsOnly(g, RemoveCells(g, id, p), id) && KeepsOthers(g, RemoveCells(g, id, p), id)
  {
    RemoveCellsSpec(g, id, p);
    if CanRemove(g, id, p) {
      var s := StackAt(g, p);
      var i := IndexOf(s, id);
      SetStackShaped(g, size, p, s[..i] + s[i + 1..]);
      assert s == s[..i] + [s[i]] + s[i + 1..];
    }
  }

  lemma MoveCellsFrame(g: Grid, size: nat, id: PieceId, from: Position, to: Position)
    requires Shaped(g, size)
    ensures Shaped(MoveCells(g, id, from, to), size)
    ensures AddsOnly(g, MoveCells(g, id, from, to), id) && KeepsOthers(g, MoveCells(g, id, from, to), id)
  {
    if CanRemove(g, id, from) {
      var lifted := RemoveCells(g, id, from);
      RemoveCellsFrame(g, size, id, from);
      PlaceCellsFrame(lifted, size, id, if InGrid(lifted, to) then to else from);
    }
  }

  /** A record that keeps the piece's identity: only position, isOnBoard and rotation may change. */
  predicate SameIdentity(a: ChessPiece, b: ChessPiece) {
    a.id == b.id && a.player == b.player && a.shapeId == b.shapeId && a.isBird == b.isBird
  }

  /**
   * One step of any operation: a grid change that adds at most `id` and keeps every other id,
   * and a new record for `id` that is consistent and backed by the new grid.
   */
  lemma Retouch(cells: Grid, arena: Arena, size: nat, cells2: Grid, id: PieceId, piece: ChessPiece)
    requires BoardInvariant(cells, arena, size) && id in arena
    requires Shaped(cells2, size) && AddsOnly(cells, cells2, id) && KeepsOthers(cells, cells2, id)
    requires SameIdentity(arena[id], piece) && (piece.isOnBoard <==> piece.position.Some?)
    requires piece.position.Some? ==> id in StackAt(cells2, piece.position.value)
    ensures BoardInvariant(cells2, arena[id := piece], size)
  {
  }

  // ---------------------------------------------------------------- the initial state

  function NewStats(): PlayerStats {
    PlayerStats(0, 0, 0, 0)
  }

  /** initializeGameState: player 1 to move, both sets of pieces off the board, counters at zero. */
  function InitialState(config: GameConfig): (r: GameState)
    ensures ListsKnown(r)
    ensures |r.player1Pieces| == config.piecesPerPlayer && |r.player2Pieces| == config.piecesPerPlayer
  {
    var p1 := PlayerPieces(Player1, config.piecesPerPlayer);
    var p2 := PlayerPieces(Player2, config.piecesPerPlayer);
    InitialArenaEntries(config.piecesPerPlayer);
    IdsOfPlayerPieces(Player1, config.piecesPerPlayer);
    IdsOfPlayerPieces(Player2, config.piecesPerPlayer);
    GameState(Player1, ArenaOf(p1 + p2), IdsOf(p1), IdsOf(p2), [], PassCount(0, 0),
              NewStats(), NewStats(), None, 0)
  }

  /** Each created piece is in the initial arena under its id. */
  lemma InitialArenaEntries(n: nat)
    ensures forall i :: 0 <= i < n ==>
      NewPiece(Player1, i).id in ArenaOf(AllNewPieces(n)) && ArenaOf(AllNewPieces(n))[NewPiece(Player1, i).id] == NewPiece(Player1, i)
    ensures forall i :: 0 <= i < n ==>
      NewPiece(Player2, i).id in ArenaOf(AllNewPieces(n)) && ArenaOf(AllNewPieces(n))[NewPiece(Player2, i).id] == NewPiece(Player2, i)
  {
    var all := AllNewPieces(n);
    AllNewPiecesDistinct(n);
    ArenaOfSpec(all);
    var a := ArenaOf(all);
    forall i | 0 <= i < n
      ensures NewPiece(Player1, i).id in a && a[NewPiece(Player1, i).id] == NewPiece(Player1, i)
      ensures NewPiece(Player2, i).id in a && a[NewPiece(Player2, i).id] == NewPiece(Player2, i)
    {
      assert all[i] == NewPiece(Player1, i);
      assert all[n + i] == NewPiece(Player2, i);
    }
  }

  /** Every record of the initial arena is a created piece: under its id, with a valid shape, off the board. */
  lemma InitialArenaRecords(n: nat)
    ensures var a := ArenaOf(AllNewPieces(n));
      forall id :: id in a ==>
        (a[id].id == id && IsValidShapeId(a[id].shapeId) && !a[id].isOnBoard && a[id].position.None?)
  {
    var all := AllNewPieces(n);
    var a := ArenaOf(all);
    AllNewPiecesDistinct(n);
    ArenaOfSpec(all);
    forall id | id in a ensures a[id].id == id && IsValidShapeId(a[id].shapeId) && !a[id].isOnBoard && a[id].position.None? {
      var k :| 0 <= k < |all| && IdsOf(all)[k] == id;
      var player: Player, i: nat := if k < n then Player1 else Player2, if k < n then k else k - n;
      assert all[k] == NewPiece(player, i);
      NewPieceSpec(player, i);
    }
  }

  lemma IdsOfPlayerPieces(player: Player, n: nat)
    ensures |IdsOf(PlayerPieces(player, n))| == n
    ensures forall i :: 0 <= i < n ==> IdsOf(PlayerPieces(player, n))[i] == NewPiece(player, i).id
  {
  }

  /** The initial state on a fresh board satisfies the invariant; each list holds piecesPerPlayer pieces, all off the board. */
  lemma InitialStateSpec(config: GameConfig, size: nat)
    ensures var st := InitialState(config);
      Invariant(st, InitialCells(size, size), size) &&
      |st.player1Pieces| == config.piecesPerPlayer && |st.player2Pieces| == config.piecesPerPlayer &&
      (forall id :: id in st.pieces ==> !st.pieces[id].isOnBoard) &&
      (forall i :: 0 <= i < config.piecesPerPlayer ==> st.pieces[st.player1Pieces[i]] == NewPiece(Player1, i)) &&
      (forall i :: 0 <= i < config.piecesPerPlayer ==> st.pieces[st.player2Pieces[i]] == NewPiece(Player2, i))
  {
    var n := config.piecesPerPlayer;
    var st := InitialState(config);
    assert st.pieces == ArenaOf(AllNewPieces(n));
    InitialArenaEntries(n);
    InitialArenaRecords(n);
    IdsOfPlayerPieces(Player1, n);
    IdsOfPlayerPieces(Player2, n);
    InitialCellsSpec(size);
    InvariantWellFormed(InitialCells(size, size), st.pieces, size);
    forall i | 0 <= i < n ensures st.pieces[st.player1Pieces[i]].player == Player1
      && st.pieces[st.player2Pieces[i]].player == Player2
    {
      NewPieceSpec(Player1, i);
      NewPieceSpec(Player2, i);
    }
  }

  // ---------------------------------------------------------------- counters and turns

  /** `player1Stats` or `player2Stats`. */
  function StatsOf(st: GameState, p: Player): PlayerStats {
    if p == Player1 then st.player1Stats else st.player2Stats
  }

  function WithStats(st: GameState, p: Player, s: PlayerStats): GameState {
    if p == Player1 then st.(player1Stats := s) else st.(player2Stats := s)
  }

  /** `passCount.player1` or `passCount.player2`. */
  function PassesOf(st: GameState, p: Player): nat {
    if p == Player1 then st.passCount.player1 else st.passCount.player2
  }

  function WithPasses(st: GameState, p: Player, n: nat): GameState {
    if p == Player1 then st.(passCount := st.passCount.(player1 := n)) else st.(passCount := st.passCount.(player2 := n))
  }

  /** Writing one player's counters leaves the other player's alone. */
  lemma CountersSeparate(st: GameState, p: Player, s: PlayerStats, n: nat)
    ensures StatsOf(WithStats(st, p, s), p) == s && StatsOf(WithStats(st, p, s), Opponent(p)) == StatsOf(st, Opponent(p))
    ensures PassesOf(WithStats(st, p, s), p) == PassesOf(st, p) && PassesOf(WithStats(st, p, s), Opponent(p)) == PassesOf(st, Opponent(p))
    ensures PassesOf(WithPasses(st, p, n), p) == n && PassesOf(WithPasses(st, p, n), Opponent(p)) == PassesOf(st, Opponent(p))
    ensures StatsOf(WithPasses(st, p, n), p) == StatsOf(st, p) && StatsOf(WithPasses(st, p, n), Opponent(p)) == StatsOf(st, Opponent(p))
  {
  }

  /** switchTurn: the other player moves next and the turn counter advances. */
  function SwitchedTurn(st: GameState): (r: GameState)
    ensures r.currentPlayer == Opponent(st.currentPlayer) && r.currentPlayer != st.currentPlayer
    ensures r.turnNumber == st.turnNumber + 1
    ensures r.(currentPlayer := st.currentPlayer, turnNumber := st.turnNumber) == st
  {
    st.(currentPlayer := if st.currentPlayer == Player1 then Player2 else Player1, turnNumber := st.turnNumber + 1)
  }

  // ---------------------------------------------------------------- the win check

  /** A piece counts for the win when it is on the board with its row among the player's finish rows. */
  predicate Finished(piece: ChessPiece, player: Player) {
    piece.isOnBoard && piece.position.Some? && piece.position.value.row in GetFinishRows(player)
  }

  /** `pieces.every(...)`: true of an empty list. */
  predicate AllFinished(arena: Arena, ids: seq<PieceId>, player: Player)
    requires forall i :: 0 <= i < |ids| ==> ids[i] in arena
  {
    forall i :: 0 <= i < |ids| ==> Finished(arena[ids[i]], player)
  }

  predicate ListsKnown(st: GameState) {
    (forall i :: 0 <= i < |st.player1Pieces| ==> st.player1Pieces[i] in st.pieces) &&
    (forall i :: 0 <= i < |st.player2Pieces| ==> st.player2Pieces[i] in st.pieces)
  }

  /**
   * checkWinCondition: player 1 is checked first; when neither has won the winner stays as it was.
   * The second ensures is the win rule itself, stated through AllFinished; what follows from it is
   * proved in MoveCounters and WinnerPersists.
   */
  function WinChecked(st: GameState): (r: GameState)
    requires ListsKnown(st)
    ensures r.(winner := st.winner) == st
    ensures r.winner == (if AllFinished(st.pieces, st.player1Pieces, Player1) then Some(Player1)
                         else if AllFinished(st.pieces, st.player2Pieces, Player2) then Some(Player2)
                         else st.winner)
  {
    if AllFinished(st.pieces, st.player1Pieces, Player1) then st.(winner := Some(Player1))
    else if AllFinished(st.pieces, st.player2Pieces, Player2) then st.(winner := Some(Player2))
    else st
  }

  // ---------------------------------------------------------------- the board actions of the engine

  /** What a Board primitive reports and leaves: its result, the grid and the piece's record. */
  datatype Placement = Placement(ok: bool, cells: Grid, piece: ChessPiece)

  /** board.placePiece(piece, to) */
  function PlaceOnBoard(cells: Grid, size: nat, piece: ChessPiece, to: Position): Placement {
    var ok := IsValidPosition(to, size);
    Placement(ok, PlaceCells(cells, piece.id, to), if ok then PlacedPiece(piece, to) else piece)
  }

  /** board.removePiece(piece, at) */
  function RemoveFromBoard(cells: Grid, piece: ChessPiece, at: Position): Placement {
    var ok := CanRemove(cells, piece.id, at);
    Placement(ok, RemoveCells(cells, piece.id, at), if ok then LiftedPiece(piece) else piece)
  }

  /** board.movePiece(piece, from, to) */
  function MoveOnBoard(cells: Grid, size: nat, piece: ChessPiece, from: Position, to: Position): Placement {
    var lifted := CanRemove(cells, piece.id, from);
    var ok := lifted && IsValidPosition(to, size);
    Placement(ok, MoveCells(cells, piece.id, from, to),
              if !lifted then piece else PlacedPiece(piece, if ok then to else from))
  }

  /** A placement of a piece of the arena keeps the board invariant. */
  lemma PlaceOnBoardKeeps(cells: Grid, arena: Arena, size: nat, id: PieceId, to: Position)
    requires BoardInvariant(cells, arena, size) && id in arena
    ensures var r := PlaceOnBoard(cells, size, arena[id], to);
      BoardInvariant(r.cells, arena[id := r.piece], size) && SameIdentity(arena[id], r.piece)
  {
    PlaceCellsFrame(cells, size, id, to);
    PlaceCellsSpec(cells, id, to);
    ShapedInGrid(cells, size, to);
    Retouch(cells, arena, size, PlaceOnBoard(cells, size, arena[id], to).cells, id, PlaceOnBoard(cells, size, arena[id], to).piece);
  }

  lemma RemoveFromBoardKeeps(cells: Grid, arena: Arena, size: nat, id: PieceId, at: Position)
    requires BoardInvariant(cells, arena, size) && id in arena
    ensures var r := RemoveFromBoard(cells, arena[id], at);
      BoardInvariant(r.cells, arena[id := r.piece], size) && SameIdentity(arena[id], r.piece)
  {
    RemoveCellsFrame(cells, size, id, at);
    RemoveCellsSpec(cells, id, at);
    Retouch(cells, arena, size, RemoveFromBoard(cells, arena[id], at).cells, id, RemoveFromBoard(cells, arena[id], at).piece);
  }

  lemma MoveOnBoardKeeps(cells: Grid, arena: Arena, size: nat, id: PieceId, from: Position, to: Position)
    requires BoardInvariant(cells, arena, size) && id in arena
    ensures var r := MoveOnBoard(cells, size, arena[id], from, to);
      BoardInvariant(r.cells, arena[id := r.piece], size) && SameIdentity(arena[id], r.piece)
  {
    var r := MoveOnBoard(cells, size, arena[id], from, to);
    MoveCellsFrame(cells, size, id, from, to);
    if CanRemove(cells, id, from) {
      var lifted := RemoveCells(cells, id, from);
      RemoveCellsFrame(cells, size, id, from);
      ShapedInGrid(lifted, size, to);
      PlaceCellsSpec(lifted, id, if InGrid(lifted, to) then to else from);
      assert InGrid(lifted, from);
    }
    Retouch(cells, arena, size, r.cells, id, r.piece);
  }

  /** Turning a piece changes no stack and keeps the invariant. */
  lemma TurnKeeps(cells: Grid, arena: Arena, size: nat, id: PieceId, r: Rotation)
    requires BoardInvariant(cells, arena, size) && id in arena
    ensures BoardInvariant(cells, arena[id := arena[id].(rotation := r)], size)
  {
    Retouch(cells, arena, size, cells, id, arena[id].(rotation := r));
  }

  // ---------------------------------------------------------------- the operations on values

  /** What an engine operation reports and leaves: its result, the game state and the grid. */
  datatype Outcome = Outcome(ok: bool, state: GameState, cells: Grid)

  /** What an operation that leaves the board alone reports and leaves. */
  datatype Turn = Turn(ok: bool, state: GameState)

  /** executeMove's board step: movePiece from `from`, or placePiece for an initial placement. */
  function MoveStep(cells: Grid, size: nat, piece: ChessPiece, move: Move): Placement {
    if move.from.Some? then MoveOnBoard(cells, size, piece, move.from.value, move.to)
    else PlaceOnBoard(cells, size, piece, move.to)
  }

  /** `piece.rotation = newRotation` when newRotation is given. */
  function Turned(piece: ChessPiece, newRotation: Option<Rotation>): ChessPiece {
    if newRotation.Some? then piece.(rotation := newRotation.value) else piece
  }

  /** The mover's counters after a move: one more move, the undo streak and the pass count reset. */
  function Credited(st: GameState, p: Player): (r: GameState)
    ensures r.(player1Stats := st.player1Stats, player2Stats := st.player2Stats, passCount := st.passCount) == st
  {
    var s := StatsOf(st, p);
    WithPasses(WithStats(st, p, s.(totalMoves := s.totalMoves + 1, consecutiveUndos := 0)), p, 0)
  }

  /**
   * executeMove. The piece is the arena's record under move.pieceId. validateMove, then the
   * turn check; if the board step fails the method returns false, but what the board did to the
   * grid and to the piece stays. Otherwise the rotation, history, counters, win check and turn.
   */
  function MoveOutcome(st: GameState, cells: Grid, size: nat, move: Move): (r: Outcome)
    requires Invariant(st, cells, size) && move.pieceId in st.pieces
    ensures r.state.pieces.Keys == st.pieces.Keys
    ensures r.state.moveHistory == if r.ok then st.moveHistory + [move] else st.moveHistory
  {
    var piece := st.pieces[move.pieceId];
    if ValidateMove(piece, move.to, cells, st.pieces, move.newRotation) != Valid then Outcome(false, st, cells)
    else if piece.player != st.currentPlayer then Outcome(false, st, cells)
    else
      var step := MoveStep(cells, size, piece, move);
      if !step.ok then Outcome(false, st.(pieces := st.pieces[move.pieceId := step.piece]), step.cells)
      else
        var st1 := st.(pieces := st.pieces[move.pieceId := Turned(step.piece, move.newRotation)],
                       moveHistory := st.moveHistory + [move]);
        Outcome(true, SwitchedTurn(WinChecked(Credited(st1, st.currentPlayer))), step.cells)
  }

  /** pass: refused when the current player has passed already and a second pass is not allowed. */
  function PassOutcome(st: GameState, allowPassTwice: bool): Turn {
    var p := st.currentPlayer;
    if PassesOf(st, p) >= 1 && !allowPassTwice then Turn(false, st)
    else
      var s := StatsOf(st, p);
      var st1 := WithStats(st, p, s.(totalPasses := s.totalPasses + 1, consecutiveUndos := 0));
      Turn(true, SwitchedTurn(WithPasses(st1, p, PassesOf(st, p) + 1)))
  }

  /** undo's board step: move the piece back from `to` to `from`, or take it off `to`. */
  function UndoStep(cells: Grid, size: nat, piece: ChessPiece, move: Move): Placement {
    if move.from.Some? then MoveOnBoard(cells, size, piece, move.to, move.from.value)
    else RemoveFromBoard(cells, piece, move.to)
  }

  /** undo's rotation: the predecessor of newRotation when the move turned the piece. */
  function Unturned(piece: ChessPiece, move: Move): ChessPiece {
    if move.newRotation.Some? && move.needRotation then piece.(rotation := PrevRotation(move.newRotation.value))
    else piece
  }

  /** The counters undo charges to the current player: one more undo, one longer streak, one move fewer (not below 0). */
  function Charged(st: GameState, p: Player): (r: GameState)
    ensures r.(player1Stats := st.player1Stats, player2Stats := st.player2Stats) == st
  {
    var s := StatsOf(st, p);
    WithStats(st, p, s.(totalUndos := s.totalUndos + 1, consecutiveUndos := s.consecutiveUndos + 1,
                        totalMoves := if s.totalMoves > 0 then s.totalMoves - 1 else 0))
  }

  /** undo: pop the last move and take it back; the board step's own result is not consulted. */
  function UndoOutcome(st: GameState, cells: Grid, size: nat): Outcome
    requires HistoryKnown(st.moveHistory, st.pieces)
  {
    if st.moveHistory == [] then Outcome(false, st, cells)
    else
      var last := st.moveHistory[|st.moveHistory| - 1];
      var step := UndoStep(cells, size, st.pieces[last.pieceId], last);
      var st1 := st.(pieces := st.pieces[last.pieceId := Unturned(step.piece, last)],
                     moveHistory := st.moveHistory[..|st.moveHistory| - 1]);
      Outcome(true, SwitchedTurn(Charged(st1, st.currentPlayer)), step.cells)
  }

  /** rotatePiece: only a bird of the current player turns, one step clockwise, and the turn passes. */
  function RotateOutcome(st: GameState, id: PieceId): Turn
    requires id in st.pieces
  {
    var piece := st.pieces[id];
    if !piece.isBird then Turn(false, st)
    else if piece.player != st.currentPlayer then Turn(false, st)
    else Turn(true, SwitchedTurn(st.(pieces := st.pieces[id := piece.(rotation := NextRotation(piece.rotation))])))
  }

  // ---------------------------------------------------------------- executeMove

  /** A move that validateMove rejects, or made with the opponent's piece, changes nothing. */
  lemma MoveRefused(st: GameState, cells: Grid, size: nat, move: Move)
    requires Invariant(st, cells, size) && move.pieceId in st.pieces
    ensures var piece := st.pieces[move.pieceId];
      ValidateMove(piece, move.to, cells, st.pieces, move.newRotation) != Valid || piece.player != st.currentPlayer ==>
        MoveOutcome(st, cells, size, move) == Outcome(false, st, cells)
  {
  }

  /**
   * A move succeeds exactly when it is valid, the piece is the current player's and the board
   * step succeeds. Then the grid is what the board step left, the piece stands on `to` with the
   * requested rotation, the history has grown by the move, and no other piece changed.
   */
  lemma MoveSucceeds(st: GameState, cells: Grid, size: nat, move: Move)
    requires Invariant(st, cells, size) && move.pieceId in st.pieces
    ensures var piece := st.pieces[move.pieceId];
      var out := MoveOutcome(st, cells, size, move);
      (out.ok <==> ValidateMove(piece, move.to, cells, st.pieces, move.newRotation) == Valid &&
                   piece.player == st.currentPlayer && MoveStep(cells, size, piece, move).ok) &&
      (out.ok ==>
        out.cells == MoveStep(cells, size, piece, move).cells &&
        out.state.moveHistory == st.moveHistory + [move] &&
        out.state.pieces.Keys == st.pieces.Keys &&
        out.state.pieces[move.pieceId].position == Some(move.to) && out.state.pieces[move.pieceId].isOnBoard &&
        out.state.pieces[move.pieceId].rotation == move.newRotation.GetOr(piece.rotation) &&
        (forall id :: id in st.pieces && id != move.pieceId ==> out.state.pieces[id] == st.pieces[id]) &&
        out.state.player1Pieces == st.player1Pieces && out.state.player2Pieces == st.player2Pieces)
  {
    var piece := st.pieces[move.pieceId];
    var out := MoveOutcome(st, cells, size, move);
    if ValidateMove(piece, move.to, cells, st.pieces, move.newRotation) == Valid && piece.player == st.currentPlayer {
      var step := MoveStep(cells, size, piece, move);
      if step.ok {
        var st1 := st.(pieces := st.pieces[move.pieceId := Turned(step.piece, move.newRotation)],
                       moveHistory := st.moveHistory + [move]);
        var st2 := Credited(st1, st.currentPlayer);
        assert out.state == SwitchedTurn(WinChecked(st2));
        assert st2.pieces == st1.pieces && st2.moveHistory == st1.moveHistory;
        assert step.piece.position == Some(move.to) && step.piece.isOnBoard;
      }
    }
  }

  /**
   * After a successful move the mover has one more move and no pass or undo streak, the
   * opponent's counters are untouched, the turn has passed, and the winner is what the win
   * check decides on the new positions, player 1 first.
   */
  lemma MoveCounters(st: GameState, cells: Grid, size: nat, move: Move)
    requires Invariant(st, cells, size) && move.pieceId in st.pieces
    requires MoveOutcome(st, cells, size, move).ok
    ensures var out := MoveOutcome(st, cells, size, move).state;
      var p := st.currentPlayer;
      StatsOf(out, p) == StatsOf(st, p).(totalMoves := StatsOf(st, p).totalMoves + 1, consecutiveUndos := 0) &&
      PassesOf(out, p) == 0 &&
      StatsOf(out, Opponent(p)) == StatsOf(st, Opponent(p)) && PassesOf(out, Opponent(p)) == PassesOf(st, Opponent(p)) &&
      out.currentPlayer == Opponent(p) && out.turnNumber == st.turnNumber + 1 &&
      out.winner == (if AllFinished(out.pieces, out.player1Pieces, Player1) then Some(Player1)
                     else if AllFinished(out.pieces, out.player2Pieces, Player2) then Some(Player2)
                     else st.winner)
  {
    var piece := st.pieces[move.pieceId];
    var p := st.currentPlayer;
    var step := MoveStep(cells, size, piece, move);
    var st1 := st.(pieces := st.pieces[move.pieceId := Turned(step.piece, move.newRotation)],
                   moveHistory := st.moveHistory + [move]);
    var s := StatsOf(st1, p);
    CountersSeparate(st1, p, s.(totalMoves := s.totalMoves + 1, consecutiveUndos := 0), 0);
    CountersSeparate(WithStats(st1, p, s.(totalMoves := s.totalMoves + 1, consecutiveUndos := 0)), p, s, 0);
  }

  /** On success with a `from`, the pieces on the board are the same multiset; an initial placement adds the piece once. */
  lemma MoveConservesPieces(st: GameState, cells: Grid, size: nat, move: Move)
    requires Invariant(st, cells, size) && move.pieceId in st.pieces
    requires MoveOutcome(st, cells, size, move).ok
    ensures var out := MoveOutcome(st, cells, size, move);
      multiset(AllPieces(out.cells, size)) ==
        multiset(AllPieces(cells, size)) + (if move.from.Some? then multiset{} else multiset{move.pieceId})
  {
    var piece := st.pieces[move.pieceId];
    MoveSucceeds(st, cells, size, move);
    if move.from.Some? {
      MoveCellsPieces(cells, size, piece.id, move.from.value, move.to);
    } else {
      PlaceCellsPieces(cells, size, piece.id, move.to);
    }
  }

  /** A board step on a piece of the arena keeps the whole engine invariant. */
  lemma StepKeeps(st: GameState, cells: Grid, size: nat, id: PieceId, step: Placement)
    requires Invariant(st, cells, size) && id in st.pieces
    requires BoardInvariant(step.cells, st.pieces[id := step.piece], size) && SameIdentity(st.pieces[id], step.piece)
    ensures Invariant(st.(pieces := st.pieces[id := step.piece]), step.cells, size)
  {
    InvariantWellFormed(step.cells, st.pieces[id := step.piece], size);
  }

  /** executeMove's board step keeps the invariant, and so does turning the piece afterwards. */
  lemma MoveStepKeeps(st: GameState, cells: Grid, size: nat, move: Move)
    requires Invariant(st, cells, size) && move.pieceId in st.pieces
    ensures var step := MoveStep(cells, size, st.pieces[move.pieceId], move);
      Invariant(st.(pieces := st.pieces[move.pieceId := step.piece]), step.cells, size) &&
      Invariant(st.(pieces := st.pieces[move.pieceId := Turned(step.piece, move.newRotation)]), step.cells, size)
  {
    var id := move.pieceId;
    var step := MoveStep(cells, size, st.pieces[id], move);
    if move.from.Some? {
      MoveOnBoardKeeps(cells, st.pieces, size, id, move.from.value, move.to);
    } else {
      PlaceOnBoardKeeps(cells, st.pieces, size, id, move.to);
    }
    StepKeeps(st, cells, size, id, step);
    if move.newRotation.Some? {
      var a := st.pieces[id := step.piece];
      TurnKeeps(step.cells, a, size, id, move.newRotation.value);
      assert a[id := a[id].(rotation := move.newRotation.value)] == st.pieces[id := Turned(step.piece, move.newRotation)];
      StepKeeps(st, cells, size, id, Placement(true, step.cells, Turned(step.piece, move.newRotation)));
    }
  }

  /** Whatever executeMove does keeps the engine invariant. */
  lemma MoveKeeps(st: GameState, cells: Grid, size: nat, move: Move)
    requires Invariant(st, cells, size) && move.pieceId in st.pieces
    ensures var out := MoveOutcome(st, cells, size, move); Invariant(out.state, out.cells, size)
  {
    var piece := st.pieces[move.pieceId];
    MoveStepKeeps(st, cells, size, move);
    if ValidateMove(piece, move.to, cells, st.pieces, move.newRotation) == Valid && piece.player == st.currentPlayer {
      var step := MoveStep(cells, size, piece, move);
      if step.ok {
        var st0 := st.(pieces := st.pieces[move.pieceId := Turned(step.piece, move.newRotation)]);
        var st1 := st0.(moveHistory := st.moveHistory + [move]);
        assert Invariant(st1, step.cells, size);
        var st2 := Credited(st1, st.currentPlayer);
        assert st2.pieces == st1.pieces && st2.moveHistory == st1.moveHistory;
      }
    }
  }

  /** The current player's list (`player1Pieces` or `player2Pieces`). */
  function CurrentPieces(st: GameState): seq<PieceId> {
    if st.currentPlayer == Player1 then st.player1Pieces else st.player2Pieces
  }

  /** Every move the generator offers for one of the current player's pieces is one executeMove carries out. */
  lemma GeneratedMoveSucceeds(st: GameState, cells: Grid, size: nat, id: PieceId, includeRotations: bool, m: Move)
    requires Invariant(st, cells, size) && id in CurrentPieces(st)
    requires m in PossibleMoves(st.pieces[id], cells, st.pieces, includeRotations)
    ensures m.pieceId == id && MoveOutcome(st, cells, size, m).ok
  {
    var piece := st.pieces[id];
    PossibleMovesSound(piece, cells, st.pieces, includeRotations, m);
    var k :| 0 <= k < |CurrentPieces(st)| && CurrentPieces(st)[k] == id;
    assert piece.player == st.currentPlayer;
    var from := piece.position.value;
    assert id in StackAt(cells, from);
    assert |cells| == size;
    MoveSucceeds(st, cells, size, m);
  }

  // ---------------------------------------------------------------- undo

  /**
   * undo fails, changing nothing, exactly when there is no move to take back. Otherwise the last
   * move leaves the history, the board step and the rotation rule apply to its piece only, the
   * player whose turn it is (not necessarily the one who made the move) is charged the undo,
   * and the turn passes; passes and the winner are untouched.
   */
  lemma UndoSpec(st: GameState, cells: Grid, size: nat)
    requires Invariant(st, cells, size)
    ensures var out := UndoOutcome(st, cells, size);
      (out.ok <==> st.moveHistory != []) &&
      (!out.ok ==> out == Outcome(false, st, cells)) &&
      (out.ok ==>
        var h := st.moveHistory;
        var last := h[|h| - 1];
        var step := UndoStep(cells, size, st.pieces[last.pieceId], last);
        var p := st.currentPlayer;
        var s := StatsOf(st, p);
        out.state.moveHistory == h[..|h| - 1] && h == out.state.moveHistory + [last] &&
        out.cells == step.cells &&
        out.state.pieces.Keys == st.pieces.Keys &&
        out.state.pieces[last.pieceId].position == step.piece.position &&
        out.state.pieces[last.pieceId].rotation ==
          (if last.newRotation.Some? && last.needRotation then PrevRotation(last.newRotation.value)
           else st.pieces[last.pieceId].rotation) &&
        (forall id :: id in st.pieces && id != last.pieceId ==> out.state.pieces[id] == st.pieces[id]) &&
        StatsOf(out.state, p) == s.(totalUndos := s.totalUndos + 1, consecutiveUndos := s.consecutiveUndos + 1,
                                    totalMoves := if s.totalMoves > 0 then s.totalMoves - 1 else 0) &&
        StatsOf(out.state, Opponent(p)) == StatsOf(st, Opponent(p)) &&
        out.state.passCount == st.passCount && out.state.winner == st.winner &&
        out.state.currentPlayer == Opponent(p) && out.state.turnNumber == st.turnNumber + 1)
  {
    if st.moveHistory != [] {
      var h := st.moveHistory;
      var last := h[|h| - 1];
      var step := UndoStep(cells, size, st.pieces[last.pieceId], last);
      var st1 := st.(pieces := st.pieces[last.pieceId := Unturned(step.piece, last)], moveHistory := h[..|h| - 1]);
      var p := st.currentPlayer;
      CountersSeparate(st1, p, StatsOf(Charged(st1, p), p), 0);
      assert h == h[..|h| - 1] + [last];
    }
  }

  /** Whatever undo does keeps the engine invariant. */
  lemma UndoKeeps(st: GameState, cells: Grid, size: nat)
    requires Invariant(st, cells, size)
    ensures var out := UndoOutcome(st, cells, size); Invariant(out.state, out.cells, size)
  {
    if st.moveHistory != [] {
      var h := st.moveHistory;
      var last := h[|h| - 1];
      var id := last.pieceId;
      var step := UndoStep(cells, size, st.pieces[id], last);
      if last.from.Some? {
        MoveOnBoardKeeps(cells, st.pieces, size, id, last.to, last.from.value);
      } else {
        RemoveFromBoardKeeps(cells, st.pieces, size, id, last.to);
      }
      StepKeeps(st, cells, size, id, step);
      var unturned := Unturned(step.piece, last);
      if last.newRotation.Some? && last.needRotation {
        var a := st.pieces[id := step.piece];
        TurnKeeps(step.cells, a, size, id, PrevRotation(last.newRotation.value));
        assert a[id := a[id].(rotation := PrevRotation(last.newRotation.value))] == st.pieces[id := unturned];
      }
      StepKeeps(st, cells, size, id, Placement(true, step.cells, unturned));
      var st1 := st.(pieces := st.pieces[id := unturned], moveHistory := h[..|h| - 1]);
      assert Invariant(st1, step.cells, size);
      assert Charged(st1, st.currentPlayer).pieces == st1.pieces;
    }
  }

  /** The piece is on top of the stack at p and nowhere below it. */
  predicate OnTopOnce(cells: Grid, id: PieceId, p: Position) {
    var s := StackAt(cells, p);
    |s| > 0 && s[|s| - 1] == id && id !in s[..|s| - 1]
  }

  /**
   * Undo after a successful move: when the piece was alone on top of `from` (or, for an initial
   * placement, absent from `to`) and absent from `to`, the grid and the history are restored,
   * the piece is back where the move said it came from and the same player is to move two turns
   * later. The rotation is restored only to the predecessor of newRotation, and the counters are
   * not restored: the mover keeps the move and the opponent is charged the undo.
   */
  lemma MoveThenUndo(st: GameState, cells: Grid, size: nat, move: Move)
    requires Invariant(st, cells, size) && move.pieceId in st.pieces
    requires MoveOutcome(st, cells, size, move).ok
    requires move.from.Some? ==> move.from.value != move.to && OnTopOnce(cells, move.pieceId, move.from.value)
    requires move.pieceId !in StackAt(cells, move.to)
    ensures var mid := MoveOutcome(st, cells, size, move);
      var out := UndoOutcome(mid.state, mid.cells, size);
      var piece := st.pieces[move.pieceId];
      var p := st.currentPlayer;
      out.ok && out.cells == cells && out.state.moveHistory == st.moveHistory &&
      out.state.currentPlayer == p && out.state.turnNumber == st.turnNumber + 2 &&
      out.state.pieces[move.pieceId].position == move.from &&
      out.state.pieces[move.pieceId].isOnBoard == move.from.Some? &&
      out.state.pieces[move.pieceId].rotation ==
        (if move.newRotation.Some? && move.needRotation then PrevRotation(move.newRotation.value)
         else move.newRotation.GetOr(piece.rotation)) &&
      (forall id :: id in st.pieces && id != move.pieceId ==> out.state.pieces[id] == st.pieces[id]) &&
      StatsOf(out.state, p).totalMoves == StatsOf(st, p).totalMoves + 1 &&
      StatsOf(out.state, Opponent(p)).totalUndos == StatsOf(st, Opponent(p)).totalUndos + 1
  {
    var id := move.pieceId;
    var piece := st.pieces[id];
    var p := st.currentPlayer;
    var mid := MoveOutcome(st, cells, size, move);
    MoveSucceeds(st, cells, size, move);
    MoveCounters(st, cells, size, move);
    MoveKeeps(st, cells, size, move);
    UndoSpec(mid.state, mid.cells, size);
    var h := mid.state.moveHistory;
    assert h[|h| - 1] == move && h[..|h| - 1] == st.moveHistory;
    var moved := mid.state.pieces[id];
    ShapedInGrid(cells, size, move.to);
    if move.from.Some? {
      var from := move.from.value;
      assert InGrid(cells, from);
      ShapedInGrid(cells, size, from);
      MoveThenMoveBack(cells, id, from, move.to);
      MoveCellsSpec(cells, id, from, move.to);
      assert CanRemove(mid.cells, id, move.to);
    } else {
      PlaceThenRemove(cells, id, move.to);
      PlaceCellsSpec(cells, id, move.to);
      assert CanRemove(mid.cells, id, move.to);
    }
  }

  /**
   * With needRotation set, undo gives back the rotation the piece had exactly when the move turned
   * it one step clockwise; a half turn from 0 to 180 comes back as 90.
   */
  lemma UndoRotationExact(before: Rotation, newRotation: Rotation)
    ensures PrevRotation(newRotation) == before <==> newRotation == NextRotation(before)
    ensures PrevRotation(180) == 90
  {
    RotationSteps(before);
    RotationSteps(newRotation);
  }

  // ---------------------------------------------------------------- pass

  /**
   * pass is refused, changing nothing, exactly when the current player has passed already and a
   * second pass is not allowed. Otherwise that player's pass count and total passes go up by one,
   * the undo streak is reset and the turn passes; nothing else changes.
   */
  lemma PassSpec(st: GameState, allowPassTwice: bool)
    ensures var out := PassOutcome(st, allowPassTwice);
      var p := st.currentPlayer;
      var s := StatsOf(st, p);
      (out.ok <==> !(PassesOf(st, p) >= 1 && !allowPassTwice)) &&
      (!out.ok ==> out.state == st) &&
      (out.ok ==>
        PassesOf(out.state, p) == PassesOf(st, p) + 1 &&
        StatsOf(out.state, p) == s.(totalPasses := s.totalPasses + 1, consecutiveUndos := 0) &&
        PassesOf(out.state, Opponent(p)) == PassesOf(st, Opponent(p)) &&
        StatsOf(out.state, Opponent(p)) == StatsOf(st, Opponent(p)) &&
        out.state.currentPlayer == Opponent(p) && out.state.turnNumber == st.turnNumber + 1 &&
        out.state.pieces == st.pieces && out.state.moveHistory == st.moveHistory && out.state.winner == st.winner &&
        out.state.player1Pieces == st.player1Pieces && out.state.player2Pieces == st.player2Pieces)
  {
    var p := st.currentPlayer;
    var s := StatsOf(st, p);
    var st1 := WithStats(st, p, s.(totalPasses := s.totalPasses + 1, consecutiveUndos := 0));
    CountersSeparate(st, p, s.(totalPasses := s.totalPasses + 1, consecutiveUndos := 0), 0);
    CountersSeparate(st1, p, s, PassesOf(st, p) + 1);
  }

  /** No player has passed more than once in a row. */
  predicate PassesBounded(st: GameState) {
    st.passCount.player1 <= 1 && st.passCount.player2 <= 1
  }

  /** Without allowPassTwice, every operation keeps each pass count at most 1. */
  lemma PassesStayBounded(st: GameState, cells: Grid, size: nat, allowPassTwice: bool, move: Move, id: PieceId)
    requires !allowPassTwice && PassesBounded(st) && Invariant(st, cells, size)
    ensures PassesBounded(PassOutcome(st, allowPassTwice).state)
    ensures move.pieceId in st.pieces ==> PassesBounded(MoveOutcome(st, cells, size, move).state)
    ensures PassesBounded(UndoOutcome(st, cells, size).state)
    ensures id in st.pieces ==> PassesBounded(RotateOutcome(st, id).state)
  {
    PassSpec(st, allowPassTwice);
    if move.pieceId in st.pieces && MoveOutcome(st, cells, size, move).ok {
      MoveCounters(st, cells, size, move);
    }
    UndoSpec(st, cells, size);
  }

  // ---------------------------------------------------------------- rotatePiece

  /**
   * rotatePiece is refused, changing nothing, unless the piece is a bird of the current player.
   * Otherwise its rotation advances one step clockwise and the turn passes; its position, the
   * other pieces, the history, the counters and the winner are unchanged.
   */
  lemma RotateSpec(st: GameState, id: PieceId)
    requires id in st.pieces
    ensures var out := RotateOutcome(st, id);
      var piece := st.pieces[id];
      (out.ok <==> piece.isBird && piece.player == st.currentPlayer) &&
      (!out.ok ==> out.state == st) &&
      (out.ok ==>
        out.state.pieces == st.pieces[id := piece.(rotation := NextRotation(piece.rotation))] &&
        out.state.pieces[id].rotation == (piece.rotation + 90) % 360 &&
        out.state.moveHistory == st.moveHistory && out.state.passCount == st.passCount &&
        out.state.player1Stats == st.player1Stats && out.state.player2Stats == st.player2Stats &&
        out.state.winner == st.winner &&
        out.state.currentPlayer == Opponent(st.currentPlayer) && out.state.turnNumber == st.turnNumber + 1)
  {
    RotationSteps(st.pieces[id].rotation);
  }

  /** rotatePiece keeps the engine invariant. */
  lemma RotateKeeps(st: GameState, cells: Grid, size: nat, id: PieceId)
    requires Invariant(st, cells, size) && id in st.pieces
    ensures Invariant(RotateOutcome(st, id).state, cells, size)
  {
    var piece := st.pieces[id];
    TurnKeeps(cells, st.pieces, size, id, NextRotation(piece.rotation));
    StepKeeps(st, cells, size, id, Placement(true, cells, piece.(rotation := NextRotation(piece.rotation))));
  }

  /** pass keeps the engine invariant. */
  lemma PassKeeps(st: GameState, cells: Grid, size: nat, allowPassTwice: bool)
    requires Invariant(st, cells, size)
    ensures Invariant(PassOutcome(st, allowPassTwice).state, cells, size)
  {
    PassSpec(st, allowPassTwice);
  }

  // ---------------------------------------------------------------- the winner

  /** Once there is a winner no operation takes it away; only a move can set it. */
  lemma WinnerPersists(st: GameState, cells: Grid, size: nat, allowPassTwice: bool, move: Move, id: PieceId)
    requires Invariant(st, cells, size)
    ensures PassOutcome(st, allowPassTwice).state.winner == st.winner
    ensures UndoOutcome(st, cells, size).state.winner == st.winner
    ensures id in st.pieces ==> RotateOutcome(st, id).state.winner == st.winner
    ensures move.pieceId in st.pieces && st.winner.Some? ==> MoveOutcome(st, cells, size, move).state.winner.Some?
  {
    PassSpec(st, allowPassTwice);
    UndoSpec(st, cells, size);
    if move.pieceId in st.pieces && MoveOutcome(st, cells, size, move).ok {
      MoveCounters(st, cells, size, move);
    }
  }

  // ---------------------------------------------------------------- startGame

  /** The grid, the pieces and the piece index while placeInitialPieces runs. */
  datatype Placing = Placing(cells: Grid, pieces: Arena, next: nat)

  /**
   * The inner loop of placeInitialPieces from column `col` of `row`: while columns and pieces
   * remain, place the next piece in the next column and advance the index, whether or not the
   * board accepted the piece.
   */
  function PlaceRow(at: Placing, size: nat, ids: seq<PieceId>, row: int, col: nat): (r: Placing)
    requires forall i :: 0 <= i < |ids| ==> ids[i] in at.pieces
    ensures r.pieces.Keys == at.pieces.Keys
    ensures at.next <= |ids| ==> at.next <= r.next <= |ids|
    decreases size - col
  {
    if col >= size || at.next >= |ids| then at
    else
      var id := ids[at.next];
      var placed := PlaceOnBoard(at.cells, size, at.pieces[id], Position(row, col));
      PlaceRow(Placing(placed.cells, at.pieces[id := placed.piece], at.next + 1), size, ids, row, col + 1)
  }

  /** placeInitialPieces: the rows in order, the piece index carried from row to row. */
  function PlaceRows(at: Placing, size: nat, ids: seq<PieceId>, rows: seq<int>): (r: Placing)
    requires forall i :: 0 <= i < |ids| ==> ids[i] in at.pieces
    ensures r.pieces.Keys == at.pieces.Keys
    decreases |rows|
  {
    if rows == [] then at else PlaceRows(PlaceRow(at, size, ids, rows[0], 0), size, ids, rows[1..])
  }

  /** startGame: player 1's pieces into player 1's start rows, then player 2's; it always reports success. */
  function StartOutcome(st: GameState, cells: Grid, size: nat): Outcome
    requires ListsKnown(st)
  {
    var a := PlaceRows(Placing(cells, st.pieces, 0), size, st.player1Pieces, GetStartRows(Player1));
    var b := PlaceRows(Placing(a.cells, a.pieces, 0), size, st.player2Pieces, GetStartRows(Player2));
    Outcome(true, st.(pieces := b.pieces), b.cells)
  }

  /** One row: the index advances by the number of columns left, or up to the end of the list, and pieces not placed are untouched. */
  lemma {:induction false} PlaceRowCount(at: Placing, size: nat, ids: seq<PieceId>, row: int, col: nat)
    requires forall i :: 0 <= i < |ids| ==> ids[i] in at.pieces
    requires at.next <= |ids| && col <= size
    ensures var r := PlaceRow(at, size, ids, row, col);
      r.next == (if |ids| < at.next + (size - col) then |ids| else at.next + (size - col)) &&
      (forall id :: id in at.pieces && id !in ids[at.next..r.next] ==> r.pieces[id] == at.pieces[id])
    decreases size - col
  {
    if col < size && at.next < |ids| {
      var id := ids[at.next];
      var placed := PlaceOnBoard(at.cells, size, at.pieces[id], Position(row, col));
      var at' := Placing(placed.cells, at.pieces[id := placed.piece], at.next + 1);
      PlaceRowCount(at', size, ids, row, col + 1);
      var r := PlaceRow(at', size, ids, row, col + 1);
      assert ids[at.next..r.next] == [id] + ids[at'.next..r.next];
    }
  }

  /** A piece that is not among the ids still to be placed is untouched by the rest of the row. */
  lemma {:induction false} PlaceRowLater(at: Placing, size: nat, ids: seq<PieceId>, row: int, col: nat, id: PieceId)
    requires forall i :: 0 <= i < |ids| ==> ids[i] in at.pieces
    requires id in at.pieces && forall k :: at.next <= k < |ids| ==> ids[k] != id
    ensures PlaceRow(at, size, ids, row, col).pieces[id] == at.pieces[id]
    decreases size - col
  {
    if col < size && at.next < |ids| {
      var next := ids[at.next];
      var placed := PlaceOnBoard(at.cells, size, at.pieces[next], Position(row, col));
      PlaceRowLater(Placing(placed.cells, at.pieces[next := placed.piece], at.next + 1), size, ids, row, col + 1, id);
    }
  }

  /** The first piece placed in a row stands in column col when that cell exists, and is untouched when it does not. */
  lemma PlaceRowFirst(at: Placing, size: nat, ids: seq<PieceId>, row: int, col: nat)
    requires forall i :: 0 <= i < |ids| ==> ids[i] in at.pieces
    requires NoDuplicates(ids) && at.next < |ids| && col < size
    ensures var p := Position(row, col);
      PlaceRow(at, size, ids, row, col).pieces[ids[at.next]] ==
        (if IsValidPosition(p, size) then PlacedPiece(at.pieces[ids[at.next]], p) else at.pieces[ids[at.next]])
  {
    var id := ids[at.next];
    var placed := PlaceOnBoard(at.cells, size, at.pieces[id], Position(row, col));
    var at' := Placing(placed.cells, at.pieces[id := placed.piece], at.next + 1);
    assert PlaceRow(at, size, ids, row, col) == PlaceRow(at', size, ids, row, col + 1);
    PlaceRowLater(at', size, ids, row, col + 1, id);
  }

  /** The j-th piece placed in a row stands in column col + j when that cell exists, and is untouched when it does not. */
  lemma {:induction false} PlaceRowSpec(at: Placing, size: nat, ids: seq<PieceId>, row: int, col: nat, j: nat)
    requires forall i :: 0 <= i < |ids| ==> ids[i] in at.pieces
    requires NoDuplicates(ids) && at.next <= j < PlaceRow(at, size, ids, row, col).next && col <= size
    ensures var p := Position(row, col + (j - at.next));
      PlaceRow(at, size, ids, row, col).pieces[ids[j]] ==
        (if IsValidPosition(p, size) then PlacedPiece(at.pieces[ids[j]], p) else at.pieces[ids[j]])
    decreases size - col
  {
    assert col < size && at.next < |ids|;
    if j == at.next {
      PlaceRowFirst(at, size, ids, row, col);
    } else {
      var id := ids[at.next];
      var placed := PlaceOnBoard(at.cells, size, at.pieces[id], Position(row, col));
      var at' := Placing(placed.cells, at.pieces[id := placed.piece], at.next + 1);
      assert PlaceRow(at, size, ids, row, col) == PlaceRow(at', size, ids, row, col + 1);
      PlaceRowSpec(at', size, ids, row, col + 1, j);
      assert ids[at.next] != ids[j];
      assert at'.pieces[ids[j]] == at.pieces[ids[j]];
      assert col + 1 + (j - at'.next) == col + (j - at.next);
    }
  }

  /** Every piece keeps its identity from one arena to the next. */
  ghost predicate IdentitiesKept(a: Arena, b: Arena) {
    a.Keys == b.Keys && forall id :: id in a ==> SameIdentity(a[id], b[id])
  }

  lemma {:induction false} PlaceRowKeeps(at: Placing, size: nat, ids: seq<PieceId>, row: int, col: nat)
    requires forall i :: 0 <= i < |ids| ==> ids[i] in at.pieces
    requires BoardInvariant(at.cells, at.pieces, size)
    ensures var r := PlaceRow(at, size, ids, row, col);
      BoardInvariant(r.cells, r.pieces, size) && IdentitiesKept(at.pieces, r.pieces)
    decreases size - col
  {
    if col < size && at.next < |ids| {
      var id := ids[at.next];
      var placed := PlaceOnBoard(at.cells, size, at.pieces[id], Position(row, col));
      var at' := Placing(placed.cells, at.pieces[id := placed.piece], at.next + 1);
      PlaceOnBoardKeeps(at.cells, at.pieces, size, id, Position(row, col));
      PlaceRowKeeps(at', size, ids, row, col + 1);
    }
  }

  lemma {:induction false} PlaceRowsKeeps(at: Placing, size: nat, ids: seq<PieceId>, rows: seq<int>)
    requires forall i :: 0 <= i < |ids| ==> ids[i] in at.pieces
    requires BoardInvariant(at.cells, at.pieces, size)
    ensures var r := PlaceRows(at, size, ids, rows);
      BoardInvariant(r.cells, r.pieces, size) && IdentitiesKept(at.pieces, r.pieces)
    decreases |rows|
  {
    if rows != [] {
      PlaceRowKeeps(at, size, ids, rows[0], 0);
      PlaceRowsKeeps(PlaceRow(at, size, ids, rows[0], 0), size, ids, rows[1..]);
    }
  }

  /** startGame keeps the engine invariant and changes nothing but the pieces and the grid. */
  lemma StartKeeps(st: GameState, cells: Grid, size: nat)
    requires Invariant(st, cells, size)
    ensures var out := StartOutcome(st, cells, size);
      out.ok && Invariant(out.state, out.cells, size) && out.state.(pieces := st.pieces) == st
  {
    var a := PlaceRows(Placing(cells, st.pieces, 0), size, st.player1Pieces, GetStartRows(Player1));
    PlaceRowsKeeps(Placing(cells, st.pieces, 0), size, st.player1Pieces, GetStartRows(Player1));
    PlaceRowsKeeps(Placing(a.cells, a.pieces, 0), size, st.player2Pieces, GetStartRows(Player2));
    var out := StartOutcome(st, cells, size);
    InvariantWellFormed(out.cells, out.state.pieces, size);
  }

  /** A single start row: placeInitialPieces reduces to its inner loop. */
  lemma PlaceOneRow(at: Placing, size: nat, ids: seq<PieceId>, row: int)
    requires forall i :: 0 <= i < |ids| ==> ids[i] in at.pieces
    ensures PlaceRows(at, size, ids, [row]) == PlaceRow(at, size, ids, row, 0)
  {
    assert [row][1..] == [];
  }

  /** A row filled from column 0 with the index at 0: piece i goes to column i if that cell exists; ids not in the list are untouched. */
  lemma FirstRow(at: Placing, size: nat, ids: seq<PieceId>, row: int, i: nat)
    requires forall k :: 0 <= k < |ids| ==> ids[k] in at.pieces
    requires NoDuplicates(ids) && at.next == 0 && i < |ids|
    ensures var r := PlaceRow(at, size, ids, row, 0);
      r.pieces[ids[i]] == (if i < size && IsValidPosition(Position(row, i), size) then PlacedPiece(at.pieces[ids[i]], Position(row, i))
                           else at.pieces[ids[i]])
  {
    var r := PlaceRow(at, size, ids, row, 0);
    PlaceRowCount(at, size, ids, row, 0);
    if i < r.next {
      PlaceRowSpec(at, size, ids, row, 0, i);
    } else {
      assert ids[i] !in ids[0..r.next] by {
        forall k | 0 <= k < r.next ensures ids[k] != ids[i] {
        }
      }
    }
  }

  /** Pieces not in the list are untouched by a row. */
  lemma RowUntouched(at: Placing, size: nat, ids: seq<PieceId>, row: int, id: PieceId)
    requires forall k :: 0 <= k < |ids| ==> ids[k] in at.pieces
    requires at.next == 0 && id in at.pieces && id !in ids
    ensures PlaceRow(at, size, ids, row, 0).pieces[id] == at.pieces[id]
  {
    PlaceRowCount(at, size, ids, row, 0);
    assert id !in ids[0..PlaceRow(at, size, ids, row, 0).next];
  }

  /** The two player lists hold distinct ids. */
  predicate ListsDistinct(st: GameState) {
    NoDuplicates(st.player1Pieces) && NoDuplicates(st.player2Pieces) &&
    forall i :: 0 <= i < |st.player1Pieces| ==> st.player1Pieces[i] !in st.player2Pieces
  }

  /**
   * startGame fills player 1's start row 3 and then player 2's start row 0 from column 0, in list
   * order: piece i stands in column i when that cell exists; pieces beyond the row's width, or
   * whose cell the board lacks, stay where they were.
   */
  lemma StartPlacement(st: GameState, cells: Grid, size: nat)
    requires ListsKnown(st) && ListsDistinct(st)
    ensures var out := StartOutcome(st, cells, size).state;
      (forall i :: 0 <= i < |st.player1Pieces| ==>
        out.pieces[st.player1Pieces[i]] ==
          (if i < size && IsValidPosition(Position(3, i), size) then PlacedPiece(st.pieces[st.player1Pieces[i]], Position(3, i))
           else st.pieces[st.player1Pieces[i]])) &&
      (forall i :: 0 <= i < |st.player2Pieces| ==>
        out.pieces[st.player2Pieces[i]] ==
          (if i < size then PlacedPiece(st.pieces[st.player2Pieces[i]], Position(0, i))
           else st.pieces[st.player2Pieces[i]]))
  {
    var ids1, ids2 := st.player1Pieces, st.player2Pieces;
    var at1 := Placing(cells, st.pieces, 0);
    PlaceOneRow(at1, size, ids1, 3);
    var a := PlaceRow(at1, size, ids1, 3, 0);
    var at2 := Placing(a.cells, a.pieces, 0);
    PlaceOneRow(at2, size, ids2, 0);
    forall i | 0 <= i < |ids1|
      ensures StartOutcome(st, cells, size).state.pieces[ids1[i]] ==
        (if i < size && IsValidPosition(Position(3, i), size) then PlacedPiece(st.pieces[ids1[i]], Position(3, i)) else st.pieces[ids1[i]])
    {
      FirstRow(at1, size, ids1, 3, i);
      RowUntouched(at2, size, ids2, 0, ids1[i]);
    }
    forall i | 0 <= i < |ids2|
      ensures StartOutcome(st, cells, size).state.pieces[ids2[i]] ==
        (if i < size then PlacedPiece(st.pieces[ids2[i]], Position(0, i)) else st.pieces[ids2[i]])
    {
      FirstRow(at2, size, ids2, 0, i);
      assert ids2[i] !in ids1;
      RowUntouched(at1, size, ids1, 3, ids2[i]);
    }
  }

  /** The two lists of a new game hold distinct ids. */
  lemma InitialListsDistinct(config: GameConfig)
    ensures ListsDistinct(InitialState(config))
  {
    var n := config.piecesPerPlayer;
    var ids1, ids2 := IdsOf(PlayerPieces(Player1, n)), IdsOf(PlayerPieces(Player2, n));
    assert InitialState(config).player1Pieces == ids1 && InitialState(config).player2Pieces == ids2;
    PlayerIdsDistinct(Player1, n);
    PlayerIdsDistinct(Player2, n);
    IdsOfPlayerPieces(Player1, n);
    IdsOfPlayerPieces(Player2, n);
    forall i | 0 <= i < n ensures ids1[i] !in ids2 {
      forall j | 0 <= j < n ensures ids1[i] != ids2[j] {
        NewPieceIdsDistinct(Player1, i, Player2, j);
      }
    }
  }

  lemma PlayerIdsDistinct(player: Player, n: nat)
    ensures NoDuplicates(IdsOf(PlayerPieces(player, n)))
  {
    var ids := IdsOf(PlayerPieces(player, n));
    forall i, j | 0 <= i < j < |ids| ensures ids[i] != ids[j] {
      assert ids[i] == NewPiece(player, i).id && ids[j] == NewPiece(player, j).id;
      NewPieceIdsDistinct(player, i, player, j);
    }
  }



  // ---------------------------------------------------------------- the current player's moves

  /** getPossibleMovesForCurrentPlayer over a list: the generator's moves of each piece on the board, in list order. */
  function MovesOf(ids: seq<PieceId>, cells: Grid, arena: Arena): seq<Move>
    requires forall i :: 0 <= i < |ids| ==> ids[i] in arena
    requires PieceTable(arena) && WellFormed(cells, arena)
    decreases |ids|
  {
    if ids == [] then []
    else
      var piece := arena[ids[|ids| - 1]];
      MovesOf(ids[..|ids| - 1], cells, arena) + (if piece.isOnBoard then PossibleMoves(piece, cells, arena, true) else [])
  }

  lemma MovesOfStep(acc: seq<Move>, ids: seq<PieceId>, k: nat, cells: Grid, arena: Arena)
    requires forall i :: 0 <= i < |ids| ==> ids[i] in arena
    requires PieceTable(arena) && WellFormed(cells, arena) && k < |ids|
    requires acc == MovesOf(ids[..k], cells, arena)
    ensures MovesOf(ids[..k + 1], cells, arena) ==
      acc + (if arena[ids[k]].isOnBoard then PossibleMoves(arena[ids[k]], cells, arena, true) else [])
  {
    assert ids[..k + 1][..k] == ids[..k];
  }

  /**
   * The list holds exactly the generator's moves of the listed pieces that are on the board,
   * each naming its piece, and at most 48 moves per piece.
   */
  lemma {:induction false} MovesOfSpec(ids: seq<PieceId>, cells: Grid, arena: Arena)
    requires forall i :: 0 <= i < |ids| ==> ids[i] in arena
    requires PieceTable(arena) && WellFormed(cells, arena)
    ensures forall m :: m in MovesOf(ids, cells, arena) <==>
      exists i :: 0 <= i < |ids| && arena[ids[i]].isOnBoard && m in PossibleMoves(arena[ids[i]], cells, arena, true)
    ensures forall m :: m in MovesOf(ids, cells, arena) ==> m.pieceId in ids
    ensures |MovesOf(ids, cells, arena)| <= 48 * |ids|
    decreases |ids|
  {
    if ids != [] {
      var init := ids[..|ids| - 1];
      var id := ids[|ids| - 1];
      MovesOfSpec(init, cells, arena);
      PossibleMovesBound(arena[id], cells, arena, true);
      forall m | m in PossibleMoves(arena[id], cells, arena, true) ensures m.pieceId == id {
        PossibleMovesSound(arena[id], cells, arena, true, m);
      }
      forall m ensures m in MovesOf(ids, cells, arena) <==>
        exists i :: 0 <= i < |ids| && arena[ids[i]].isOnBoard && m in PossibleMoves(arena[ids[i]], cells, arena, true)
      {
        if exists i :: 0 <= i < |ids| && arena[ids[i]].isOnBoard && m in PossibleMoves(arena[ids[i]], cells, arena, true) {
          var i :| 0 <= i < |ids| && arena[ids[i]].isOnBoard && m in PossibleMoves(arena[ids[i]], cells, arena, true);
          if i < |ids| - 1 {
            assert init[i] == ids[i];
          }
        }
        if m in MovesOf(init, cells, arena) {
          var i :| 0 <= i < |init| && arena[init[i]].isOnBoard && m in PossibleMoves(arena[init[i]], cells, arena, true);
          assert ids[i] == init[i];
        }
      }
      forall m | m in MovesOf(init, cells, arena) ensures m.pieceId in ids {
        assert m.pieceId in init;
      }
    }
  }

  /** Every move offered to the current player is one executeMove carries out. */
  lemma CurrentMovesSucceed(st: GameState, cells: Grid, size: nat, m: Move)
    requires Invariant(st, cells, size)
    requires m in MovesOf(CurrentPieces(st), cells, st.pieces)
    ensures m.pieceId in CurrentPieces(st) && MoveOutcome(st, cells, size, m).ok
  {
    var ids := CurrentPieces(st);
    MovesOfSpec(ids, cells, st.pieces);
    var i :| 0 <= i < |ids| && st.pieces[ids[i]].isOnBoard && m in PossibleMoves(st.pieces[ids[i]], cells, st.pieces, true);
    GeneratedMoveSucceeds(st, cells, size, ids[i], true, m);
  }

  // ---------------------------------------------------------------- the engine object

  /** createPlayerPieces: the player's pieces in creation order. */
  method CreatePlayerPieces(player: Player, piecesPerPlayer: nat) returns (pieces: seq<ChessPiece>)
    ensures pieces == PlayerPieces(player, piecesPerPlayer)
  {
    pieces := [];
    for i := 0 to piecesPerPlayer
      invariant pieces == PlayerPieces(player, i)
    {
      PlayerPiecesStep(player, i);
      pieces := pieces + [NewPiece(player, i)];
    }
  }

  /** initializeGameState for a configuration. */
  method InitializeGameState(config: GameConfig) returns (st: GameState)
    ensures st == InitialState(config)
  {
    var p1 := CreatePlayerPieces(Player1, config.piecesPerPlayer);
    var p2 := CreatePlayerPieces(Player2, config.piecesPerPlayer);
    st := GameState(Player1, ArenaOf(p1 + p2), IdsOf(p1), IdsOf(p2), [], PassCount(0, 0),
                    NewStats(), NewStats(), None, 0);
  }

  class GameEngine {
    var state: GameState
    var board: Board
    var config: GameConfig

    /** The board has the configured size and the state and the grid satisfy the engine invariant. */
    ghost predicate Valid()
      reads this, board
    {
      board.Valid() && board.size == config.boardSize && Invariant(state, board.cells, board.size)
    }

    /** new GameEngine(config): a fresh board of the configured size and a new game on it. */
    constructor(config: GameConfig)
      ensures Valid() && fresh(board) && this.config == config
      ensures state == InitialState(config) && board.cells == InitialCells(config.boardSize, config.boardSize)
    {
      var st := InitializeGameState(config);
      this.config := config;
      board := new Board(config.boardSize);
      state := st;
      new;
      InitialStateSpec(config, config.boardSize);
    }

    /** The inner loop of placeInitialPieces: fill one row from column 0 while pieces remain. */
    method PlaceRowPieces(ids: seq<PieceId>, row: int, start: nat) returns (next: nat)
      requires board.Valid() && forall i :: 0 <= i < |ids| ==> ids[i] in state.pieces
      modifies this, board
      ensures board == old(board) && config == old(config) && board.Valid() && board.size == old(board.size)
      ensures var r := PlaceRow(Placing(old(board.cells), old(state.pieces), start), board.size, ids, row, 0);
        board.cells == r.cells && state == old(state).(pieces := r.pieces) && next == r.next
    {
      next := start;
      var col := 0;
      while col < board.size && next < |ids|
        invariant board == old(board) && config == old(config) && board.Valid() && board.size == old(board.size)
        invariant col <= board.size
        invariant state == old(state).(pieces := state.pieces) && state.pieces.Keys == old(state.pieces).Keys
        invariant PlaceRow(Placing(board.cells, state.pieces, next), board.size, ids, row, col) ==
          PlaceRow(Placing(old(board.cells), old(state.pieces), start), board.size, ids, row, 0)
        decreases board.size - col
      {
        var piece := state.pieces[ids[next]];
        var _, placed := board.PlacePiece(piece, Position(row, col));
        state := state.(pieces := state.pieces[ids[next] := placed]);
        next := next + 1;
        col := col + 1;
      }
    }

    /** placeInitialPieces: the rows in order, the piece index carried from row to row. */
    method PlaceInitialPieces(ids: seq<PieceId>, rows: seq<int>)
      requires board.Valid() && forall i :: 0 <= i < |ids| ==> ids[i] in state.pieces
      modifies this, board
      ensures board == old(board) && config == old(config) && board.Valid() && board.size == old(board.size)
      ensures var r := PlaceRows(Placing(old(board.cells), old(state.pieces), 0), board.size, ids, rows);
        board.cells == r.cells && state == old(state).(pieces := r.pieces)
    {
      var pieceIndex := 0;
      for k := 0 to |rows|
        invariant board == old(board) && config == old(config) && board.Valid() && board.size == old(board.size)
        invariant state == old(state).(pieces := state.pieces) && state.pieces.Keys == old(state.pieces).Keys
        invariant PlaceRows(Placing(board.cells, state.pieces, pieceIndex), board.size, ids, rows[k..]) ==
          PlaceRows(Placing(old(board.cells), old(state.pieces), 0), board.size, ids, rows)
      {
        assert rows[k..][0] == rows[k] && rows[k..][1..] == rows[k + 1..];
        pieceIndex := PlaceRowPieces(ids, rows[k], pieceIndex);
      }
    }

    /** startGame: player 1's pieces into its start rows, then player 2's; reports success. */
    method StartGame() returns (ok: bool)
      requires Valid()
      modifies this, board
      ensures Valid() && board == old(board) && config == old(config)
      ensures var out := StartOutcome(old(state), old(board.cells), board.size);
        ok == out.ok && state == out.state && board.cells == out.cells
    {
      ghost var st0, cells0 := state, board.cells;
      PlaceInitialPieces(state.player1Pieces, GetStartRows(Player1));
      PlaceInitialPieces(state.player2Pieces, GetStartRows(Player2));
      StartKeeps(st0, cells0, board.size);
      ok := true;
    }
  
    /** switchTurn: the other player moves and the turn counter advances. */
    method SwitchTurn()
      modifies this
      ensures state == SwitchedTurn(old(state)) && board == old(board) && config == old(config)
      ensures old(Valid()) ==> Valid()
    {
      state := state.(currentPlayer := if state.currentPlayer == Player1 then Player2 else Player1,
                      turnNumber := state.turnNumber + 1);
    }

    /** checkWinCondition */
    method CheckWinCondition()
      requires ListsKnown(state)
      modifies this
      ensures state == WinChecked(old(state)) && board == old(board) && config == old(config)
    {
      var player1Win := AllFinished(state.pieces, state.player1Pieces, Player1);
      if player1Win {
        state := state.(winner := Some(Player1));
        return;
      }
      var player2Win := AllFinished(state.pieces, state.player2Pieces, Player2);
      if player2Win {
        state := state.(winner := Some(Player2));
      }
    }

    /** executeMove after a successful board step: rotation, history, counters, win check and turn. */
    method RecordMove(move: Move, after: ChessPiece)
      requires ListsKnown(state) && move.pieceId in state.pieces
      modifies this
      ensures board == old(board) && config == old(config)
      ensures var st1 := old(state).(pieces := old(state).pieces[move.pieceId := Turned(after, move.newRotation)],
                                     moveHistory := old(state).moveHistory + [move]);
        state == SwitchedTurn(WinChecked(Credited(st1, old(state).currentPlayer)))
    {
      if move.newRotation.Some? {
        state := state.(pieces := state.pieces[move.pieceId := after.(rotation := move.newRotation.value)]);
      } else {
        state := state.(pieces := state.pieces[move.pieceId := after]);
      }
      state := state.(moveHistory := state.moveHistory + [move]);
      state := Credited(state, state.currentPlayer);
      CheckWinCondition();
      SwitchTurn();
    }

    /** executeMove on the arena's record of move.pieceId. */
    method ExecuteMove(move: Move) returns (ok: bool)
      requires Valid() && move.pieceId in state.pieces
      modifies this, board
      ensures Valid() && board == old(board) && config == old(config)
      ensures var out := MoveOutcome(old(state), old(board.cells), board.size, move);
        ok == out.ok && state == out.state && board.cells == out.cells
    {
      ghost var st0, cells0, size := state, board.cells, board.size;
      ghost var out := MoveOutcome(st0, cells0, size, move);
      MoveKeeps(st0, cells0, size, move);
      var piece := state.pieces[move.pieceId];
      var validation := ValidateMove(piece, move.to, board.cells, state.pieces, move.newRotation);
      if validation.Invalid? {
        assert out == Outcome(false, st0, cells0);
        return false;
      }
      if piece.player != state.currentPlayer {
        assert out == Outcome(false, st0, cells0);
        return false;
      }
      ghost var step := MoveStep(cells0, size, piece, move);
      var moved: bool, after: ChessPiece;
      if move.from.Some? {
        moved, after := board.MovePiece(piece, move.from.value, move.to);
      } else {
        moved, after := board.PlacePiece(piece, move.to);
      }
      assert moved == step.ok && after == step.piece && board.cells == step.cells;
      if !moved {
        state := state.(pieces := state.pieces[move.pieceId := after]);
        assert out == Outcome(false, state, board.cells);
        return false;
      }
      RecordMove(move, after);
      assert out == Outcome(true, state, board.cells);
      ok := true;
    }

    /** pass, with the configured allowPassTwice. */
    method Pass() returns (ok: bool)
      requires Valid()
      modifies this
      ensures Valid() && board == old(board) && config == old(config)
      ensures Turn(ok, state) == PassOutcome(old(state), config.allowPassTwice)
    {
      PassKeeps(state, board.cells, board.size, config.allowPassTwice);
      var p := state.currentPlayer;
      var currentPassCount := PassesOf(state, p);
      if currentPassCount >= 1 && !config.allowPassTwice {
        return false;
      }
      var s := StatsOf(state, p);
      state := WithStats(state, p, s.(totalPasses := s.totalPasses + 1, consecutiveUndos := 0));
      state := WithPasses(state, p, currentPassCount + 1);
      SwitchTurn();
      ok := true;
    }

    /** undo: pop the last move and take it back on the board. */
    method Undo() returns (ok: bool)
      requires Valid()
      modifies this, board
      ensures Valid() && board == old(board) && config == old(config)
      ensures var out := UndoOutcome(old(state), old(board.cells), board.size);
        ok == out.ok && state == out.state && board.cells == out.cells
    {
      UndoKeeps(state, board.cells, board.size);
      if |state.moveHistory| == 0 {
        return false;
      }
      var lastMove := state.moveHistory[|state.moveHistory| - 1];
      state := state.(moveHistory := state.moveHistory[..|state.moveHistory| - 1]);
      var piece := state.pieces[lastMove.pieceId];
      var restored: ChessPiece;
      if lastMove.from.Some? {
        var _, back := board.MovePiece(piece, lastMove.to, lastMove.from.value);
        restored := back;
      } else {
        var _, lifted := board.RemovePiece(piece, lastMove.to);
        restored := lifted;
      }
      if lastMove.newRotation.Some? && lastMove.needRotation {
        restored := restored.(rotation := PrevRotation(lastMove.newRotation.value));
      }
      state := state.(pieces := state.pieces[lastMove.pieceId := restored]);
      state := Charged(state, state.currentPlayer);
      SwitchTurn();
      ok := true;
    }

    /** rotatePiece on the arena's record of `id`. */
    method RotatePiece(id: PieceId) returns (ok: bool)
      requires Valid() && id in state.pieces
      modifies this
      ensures Valid() && board == old(board) && config == old(config)
      ensures Turn(ok, state) == RotateOutcome(old(state), id)
    {
      RotateKeeps(state, board.cells, board.size, id);
      var piece := state.pieces[id];
      if !piece.isBird {
        return false;
      }
      if piece.player != state.currentPlayer {
        return false;
      }
      state := state.(pieces := state.pieces[id := piece.(rotation := NextRotation(piece.rotation))]);
      SwitchTurn();
      ok := true;
    }

    function GetGameState(): GameState
      reads this
    {
      state
    }

    function GetBoard(): Board
      reads this
    {
      board
    }

    function GetCurrentPlayer(): Player
      reads this
    {
      state.currentPlayer
    }

    function GetWinner(): Option<Player>
      reads this
    {
      state.winner
    }

    predicate IsGameOver()
      reads this
    {
      state.winner.Some?
    }

    /** getPossibleMovesForCurrentPlayer: the moves of the current player's pieces on the board, in list order. */
    method GetPossibleMovesForCurrentPlayer() returns (allMoves: seq<Move>)
      requires Valid()
      ensures allMoves == MovesOf(CurrentPieces(state), board.cells, state.pieces)
    {
      var pieces := if state.currentPlayer == Player1 then state.player1Pieces else state.player2Pieces;
      InvariantWellFormed(board.cells, state.pieces, board.size);
      allMoves := [];
      for k := 0 to |pieces|
        invariant allMoves == MovesOf(pieces[..k], board.cells, state.pieces)
      {
        MovesOfStep(allMoves, pieces, k, board.cells, state.pieces);
        var piece := state.pieces[pieces[k]];
        if piece.isOnBoard {
          var moves := GetPossibleMoves(piece, board.cells, state.pieces, true);
          allMoves := allMoves + moves;
        }
      }
      assert pieces[..|pieces|] == pieces;
    }

    /** getPossibleMovesForPiece: the generator's moves, rotations included, for any piece value. */
    method GetPossibleMovesForPiece(piece: ChessPiece) returns (moves: seq<Move>)
      requires Valid() && IsValidShapeId(piece.shapeId)
      ensures moves == PossibleMoves(piece, board.cells, state.pieces, true)
    {
      InvariantWellFormed(board.cells, state.pieces, board.size);
      moves := GetPossibleMoves(piece, board.cells, state.pieces, true);
    }

    /** canCurrentPlayerMove: some piece of the current player on the board has a move. */
    method CanCurrentPlayerMove() returns (can: bool)
      requires Valid()
      ensures can <==> exists i :: (0 <= i < |CurrentPieces(state)| && state.pieces[CurrentPieces(state)[i]].isOnBoard &&
        PossibleMoves(state.pieces[CurrentPieces(state)[i]], board.cells, state.pieces, true) != [])
    {
      var moves := GetPossibleMovesForCurrentPlayer();
      can := |moves| > 0;
      ghost var ids := CurrentPieces(state);
      MovesOfSpec(ids, board.cells, state.pieces);
      if can {
        assert moves[0] in moves;
      }
      if i :| 0 <= i < |ids| && state.pieces[ids[i]].isOnBoard && PossibleMoves(state.pieces[ids[i]], board.cells, state.pieces, true) != [] {
        var m := PossibleMoves(state.pieces[ids[i]], board.cells, state.pieces, true)[0];
        assert m in moves;
      }
    }

    /** reset: clear the board and start a new game state. */
    method Reset()
      requires Valid()
      modifies this, board
      ensures Valid() && board == old(board) && config == old(config)
      ensures state == InitialState(config) && board.cells == InitialCells(board.size, board.size)
    {
      board.Clear();
      state := InitializeGameState(config);
      InitialStateSpec(config, board.size);
    }
  }
}
