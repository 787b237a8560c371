/**
 * The game board (src/classes/chess/Board.ts): a size-by-size grid of cells, each holding a
 * stack of piece ids (bottom first) and the start/finish zone markers of its row.
 *
 * The module first describes the board as a value: the fresh grid, what placing, removing and
 * moving a piece does to it, and the pieces it holds. The class Board then keeps the grid in a
 * field and is proved to change it exactly as those functions say.
 */
module ChessBoard {
  import opened Util
  import opened ChessTypes
  import opened BoardConstants
  import opened EdgeMatcher

  // ---------------------------------------------------------------- the fresh board

  /** A cell as initializeBoard creates it: empty, with the zone markers of its row. */
  function InitialCell(row: int, col: int): BoardCell {
    BoardCell(Position(row, col), [],
      ZoneMarkers(IsRowInStartZone(row, Player1), IsRowInStartZone(row, Player2)),
      ZoneMarkers(IsRowInFinishZone(row, Player1), IsRowInFinishZone(row, Player2)))
  }

  /** The first n cells of a fresh row. */
  function InitialRow(row: int, n: nat): seq<BoardCell> {
    seq(n, c => InitialCell(row, c))
  }

  /** The first m rows of a fresh board of the given size. */
  function InitialCells(size: nat, m: nat): Grid {
    seq(m, r => InitialRow(r, size))
  }

  /** A size-by-size grid whose cells differ from a fresh board's only in their stacks. */
  predicate Shaped(grid: Grid, size: nat) {
    |grid| == size && (forall r :: 0 <= r < size ==> |grid[r]| == size) &&
    forall r, c :: 0 <= r < size && 0 <= c < size ==> grid[r][c].(pieces := []) == InitialCell(r, c)
  }

  /**
   * A fresh board is size-by-size with empty stacks, each cell knows its position, and its zone
   * markers say whether its row is among the start rows and the finish rows of each player.
   */
  lemma InitialCellsSpec(size: nat)
    ensures Shaped(InitialCells(size, size), size)
    ensures forall p :: StackAt(InitialCells(size, size), p) == []
    ensures forall r, c :: 0 <= r < size && 0 <= c < size ==>
      var cell := InitialCells(size, size)[r][c];
      cell.position == Position(r, c) &&
      cell.isStartZone == ZoneMarkers(r in Player1StartRows, r in Player2StartRows) &&
      cell.isFinishZone == ZoneMarkers(r in Player1FinishRows, r in Player2FinishRows)
  {
  }

  /** Two shaped grids with the same stacks everywhere are the same grid. */
  lemma ShapedEqual(g1: Grid, g2: Grid, size: nat)
    requires Shaped(g1, size) && Shaped(g2, size)
    requires forall r, c :: 0 <= r < size && 0 <= c < size ==> StackAt(g1, Position(r, c)) == StackAt(g2, Position(r, c))
    ensures g1 == g2
  {
    forall r | 0 <= r < size ensures g1[r] == g2[r] {
      forall c | 0 <= c < size ensures g1[r][c] == g2[r][c] {
        assert StackAt(g1, Position(r, c)) == StackAt(g2, Position(r, c));
        assert g1[r][c].(pieces := []) == g2[r][c].(pieces := []);
      }
    }
  }

  /** Replacing one stack keeps the grid shaped. */
  lemma SetStackShaped(grid: Grid, size: nat, p: Position, stack: seq<PieceId>)
    requires Shaped(grid, size) && InGrid(grid, p)
    ensures Shaped(SetStack(grid, p, stack), size)
  {
    var g: Grid := SetStack(grid, p, stack);
    forall r, c | 0 <= r < size && 0 <= c < size ensures g[r][c].(pieces := []) == InitialCell(r, c) {
      assert g[r][c].(pieces := []) == grid[r][c].(pieces := []);
    }
  }

  /** On a shaped grid, having a cell at p is isValidPosition(p, size). */
  lemma ShapedInGrid(grid: Grid, size: nat, p: Position)
    requires Shaped(grid, size)
    ensures InGrid(grid, p) <==> IsValidPosition(p, size)
  {
  }

  // ---------------------------------------------------------------- placing, removing, moving

  /** placePiece on the grid: the id goes on top of the stack at p, if there is a cell at p. */
  function PlaceCells(grid: Grid, id: PieceId, p: Position): Grid {
    if InGrid(grid, p) then SetStack(grid, p, StackAt(grid, p) + [id]) else grid
  }

  /** removePiece succeeds: there is a cell at p and the id is in its stack. */
  predicate CanRemove(grid: Grid, id: PieceId, p: Position) {
    InGrid(grid, p) && id in StackAt(grid, p)
  }

  /** removePiece on the grid: the first entry with the id leaves the stack at p. */
  function RemoveCells(grid: Grid, id: PieceId, p: Position): Grid {
    if CanRemove(grid, id, p) then SetStack(grid, p, RemoveAt(StackAt(grid, p), IndexOf(StackAt(grid, p), id)))
    else grid
  }

  /**
   * movePiece on the grid: remove from `from`; if that fails nothing changes. Then place on
   * `to`, or, if there is no cell at `to`, back on top of `from`.
   */
  function MoveCells(grid: Grid, id: PieceId, from: Position, to: Position): Grid {
    if !CanRemove(grid, id, from) then grid
    else
      var lifted := RemoveCells(grid, id, from);
      if InGrid(lifted, to) then PlaceCells(lifted, id, to) else PlaceCells(lifted, id, from)
  }

  /** The piece as placePiece leaves it. */
  function PlacedPiece(piece: ChessPiece, p: Position): ChessPiece {
    piece.(position := Some(p), isOnBoard := true)
  }

  /** The piece as removePiece leaves it. */
  function LiftedPiece(piece: ChessPiece): ChessPiece {
    piece.(position := None, isOnBoard := false)
  }

  /** Placing pushes the id on top of p's stack and changes no other stack; off the grid it changes nothing. */
  lemma PlaceCellsSpec(grid: Grid, id: PieceId, p: Position)
    ensures InGrid(grid, p) ==> StackAt(PlaceCells(grid, id, p), p) == StackAt(grid, p) + [id]
    ensures !InGrid(grid, p) ==> PlaceCells(grid, id, p) == grid
    ensures forall q :: q != p ==> StackAt(PlaceCells(grid, id, p), q) == StackAt(grid, q)
  {
  }

  /**
   * Removing deletes exactly the first entry with the id from p's stack, keeping the order of
   * the rest, and changes no other stack; when it fails nothing changes.
   */
  lemma RemoveCellsSpec(grid: Grid, id: PieceId, p: Position)
    ensures !CanRemove(grid, id, p) ==> RemoveCells(grid, id, p) == grid
    ensures CanRemove(grid, id, p) ==>
      var s := StackAt(grid, p);
      var i := IndexOf(s, id);
      StackAt(RemoveCells(grid, id, p), p) == s[..i] + s[i + 1..] && id !in s[..i] &&
      multiset(StackAt(RemoveCells(grid, id, p), p)) + multiset{id} == multiset(s)
    ensures forall q :: q != p ==> StackAt(RemoveCells(grid, id, p), q) == StackAt(grid, q)
  {
    if CanRemove(grid, id, p) {
      var s := StackAt(grid, p);
      var i := IndexOf(s, id);
      assert s == s[..i] + [id] + s[i + 1..];
    }
  }

  /** Writing back the stack a cell already holds changes nothing. */
  lemma SetStackSame(grid: Grid, p: Position)
    requires InGrid(grid, p)
    ensures SetStack(grid, p, StackAt(grid, p)) == grid
  {
    assert grid[p.row][p.col].(pieces := StackAt(grid, p)) == grid[p.row][p.col];
    assert grid[p.row][p.col := grid[p.row][p.col]] == grid[p.row];
  }

  /** Of two writes to the same stack only the second one counts. */
  lemma SetStackTwice(grid: Grid, p: Position, a: seq<PieceId>, b: seq<PieceId>)
    requires InGrid(grid, p)
    ensures SetStack(SetStack(grid, p, a), p, b) == SetStack(grid, p, b)
  {
    var g: Grid := SetStack(grid, p, a);
    assert g[p.row][p.col].(pieces := b) == grid[p.row][p.col].(pieces := b);
    assert g[p.row][p.col := g[p.row][p.col].(pieces := b)] == grid[p.row][p.col := grid[p.row][p.col].(pieces := b)];
  }

  /** Placing an id that is not yet in p's stack and removing it again restores the grid. */
  lemma PlaceThenRemove(grid: Grid, id: PieceId, p: Position)
    requires InGrid(grid, p) && id !in StackAt(grid, p)
    ensures RemoveCells(PlaceCells(grid, id, p), id, p) == grid
  {
    var s := StackAt(grid, p);
    IndexOfPrefix(s, id, id);
    assert RemoveAt(s + [id], |s|) == s;
    SetStackTwice(grid, p, s + [id], s);
    SetStackSame(grid, p);
  }

  /**
   * A successful move leaves the id on top of `to`'s stack and deletes its first entry at
   * `from`; when `to` has no cell the id goes back on top of `from`'s stack (not necessarily
   * where it was). No other stack changes.
   */
  lemma MoveCellsSpec(grid: Grid, id: PieceId, from: Position, to: Position)
    ensures !CanRemove(grid, id, from) ==> MoveCells(grid, id, from, to) == grid
    ensures CanRemove(grid, id, from) && InGrid(grid, to) && from != to ==>
      var s := StackAt(grid, from);
      var i := IndexOf(s, id);
      StackAt(MoveCells(grid, id, from, to), to) == StackAt(grid, to) + [id] &&
      StackAt(MoveCells(grid, id, from, to), from) == s[..i] + s[i + 1..]
    ensures CanRemove(grid, id, from) && !InGrid(grid, to) ==>
      var s := StackAt(grid, from);
      var i := IndexOf(s, id);
      StackAt(MoveCells(grid, id, from, to), from) == s[..i] + s[i + 1..] + [id]
    ensures forall q :: q != from && q != to ==> StackAt(MoveCells(grid, id, from, to), q) == StackAt(grid, q)
  {
    RemoveCellsSpec(grid, id, from);
    if CanRemove(grid, id, from) {
      var lifted := RemoveCells(grid, id, from);
      PlaceCellsSpec(lifted, id, to);
      PlaceCellsSpec(lifted, id, from);
    }
  }

  /**
   * Moving the id from the top of `from`, where it occurs once, to `to`, where it does not
   * occur, and back again restores the grid: the round trip undo relies on.
   */
  lemma MoveThenMoveBack(grid: Grid, id: PieceId, from: Position, to: Position)
    requires InGrid(grid, from) && InGrid(grid, to) && from != to
    requires |StackAt(grid, from)| > 0 && StackAt(grid, from)[|StackAt(grid, from)| - 1] == id
    requires id !in StackAt(grid, from)[..|StackAt(grid, from)| - 1] && id !in StackAt(grid, to)
    ensures MoveCells(MoveCells(grid, id, from, to), id, to, from) == grid
  {
    var s := StackAt(grid, from);
    var below := s[..|s| - 1];
    assert s == below + [id];
    IndexOfPrefix(below, id, id);
    assert RemoveAt(s, |below|) == below;
    var lifted := SetStack(grid, from, below);
    assert RemoveCells(grid, id, from) == lifted;
    var moved := PlaceCells(lifted, id, to);
    PlaceThenRemove(lifted, id, to);
    assert MoveCells(moved, id, to, from) == PlaceCells(lifted, id, from);
    SetStackTwice(grid, from, below, s);
    SetStackSame(grid, from);
  }

  // ---------------------------------------------------------------- building the fresh board

  lemma InitialRowStep(row: int, n: nat)
    ensures InitialRow(row, n + 1) == InitialRow(row, n) + [InitialCell(row, n)]
  {
  }

  lemma InitialCellsStep(size: nat, m: nat)
    ensures InitialCells(size, m + 1) == InitialCells(size, m) + [InitialRow(m, size)]
  {
  }

  /** The inner loop of initializeBoard: one row of fresh cells. */
  method InitializeRow(row: nat, size: nat) returns (boardRow: seq<BoardCell>)
    ensures boardRow == InitialRow(row, size)
  {
    boardRow := [];
    for col := 0 to size
      invariant boardRow == InitialRow(row, col)
    {
      InitialRowStep(row, col);
      boardRow := boardRow + [InitialCell(row, col)];
    }
  }

  /** initializeBoard: size rows of size fresh cells. */
  method InitializeBoard(size: nat) returns (board: Grid)
    ensures board == InitialCells(size, size)
  {
    board := [];
    for row := 0 to size
      invariant board == InitialCells(size, row)
    {
      var boardRow := InitializeRow(row, size);
      InitialCellsStep(size, row);
      board := board + [boardRow];
    }
  }

  // ---------------------------------------------------------------- the pieces on the board

  /** The stacks of the first n cells of a row, left to right. */
  function RowStacks(grid: Grid, row: int, n: nat): seq<seq<PieceId>> {
    seq(n, c => StackAt(grid, Position(row, c)))
  }

  /** The pieces of the first n cells of a row, left to right and bottom to top. */
  function RowPieces(grid: Grid, row: int, n: nat): seq<PieceId> {
    Flatten(RowStacks(grid, row, n))
  }

  /** The pieces of each of the first m rows. */
  function GridRows(grid: Grid, m: nat, n: nat): seq<seq<PieceId>> {
    seq(m, r => RowPieces(grid, r, n))
  }

  /** The pieces of the first m rows, row by row. */
  function GridPieces(grid: Grid, m: nat, n: nat): seq<PieceId> {
    Flatten(GridRows(grid, m, n))
  }

  /** getAllPieces: every stacked id, row-major, bottom to top within a cell. */
  function AllPieces(grid: Grid, size: nat): seq<PieceId> {
    GridPieces(grid, size, size)
  }

  /** An id is in a row's pieces iff it is in the stack of one of the row's cells. */
  lemma RowPiecesSpec(grid: Grid, row: int, n: nat, id: PieceId)
    ensures id in RowPieces(grid, row, n) <==> exists c :: 0 <= c < n && id in StackAt(grid, Position(row, c))
  {
    var stacks := RowStacks(grid, row, n);
    FlattenMember(stacks, id);
    if exists c :: 0 <= c < n && id in StackAt(grid, Position(row, c)) {
      var c :| 0 <= c < n && id in StackAt(grid, Position(row, c));
      assert id in stacks[c];
    }
  }

  /** An id is among all pieces iff it is in the stack of some cell of the board. */
  lemma AllPiecesSpec(grid: Grid, size: nat, id: PieceId)
    ensures id in AllPieces(grid, size) <==>
      exists r, c :: 0 <= r < size && 0 <= c < size && id in StackAt(grid, Position(r, c))
  {
    var rows := GridRows(grid, size, size);
    FlattenMember(rows, id);
    if id in AllPieces(grid, size) {
      var r :| 0 <= r < size && id in rows[r];
      RowPiecesSpec(grid, r, size, id);
    }
    if exists r, c :: 0 <= r < size && 0 <= c < size && id in StackAt(grid, Position(r, c)) {
      var r, c :| 0 <= r < size && 0 <= c < size && id in StackAt(grid, Position(r, c));
      RowPiecesSpec(grid, r, size, id);
      assert id in rows[r];
    }
  }

  /** Two grids that differ at most in the stack at p. */
  ghost predicate SameElsewhere(grid: Grid, g: Grid, p: Position) {
    forall q :: q != p ==> StackAt(g, q) == StackAt(grid, q)
  }

  /** In the row that holds p, the count of each id changes by its change in the stack at p. */
  lemma RowPiecesChange(grid: Grid, g: Grid, p: Position, n: nat, id: PieceId)
    requires SameElsewhere(grid, g, p) && 0 <= p.col < n
    ensures multiset(RowPieces(g, p.row, n))[id] + multiset(StackAt(grid, p))[id] ==
      multiset(RowPieces(grid, p.row, n))[id] + multiset(StackAt(g, p))[id]
  {
    var stacks := RowStacks(grid, p.row, n);
    assert RowStacks(g, p.row, n) == stacks[p.col := StackAt(g, p)];
    FlattenUpdate(stacks, p.col, StackAt(g, p), id);
  }

  /** The other rows keep their pieces. */
  lemma GridRowsChange(grid: Grid, g: Grid, p: Position, m: nat, n: nat)
    requires SameElsewhere(grid, g, p) && 0 <= p.row < m
    ensures GridRows(g, m, n) == GridRows(grid, m, n)[p.row := RowPieces(g, p.row, n)]
  {
    forall r | 0 <= r < m && r != p.row ensures RowStacks(g, r, n) == RowStacks(grid, r, n) {
    }
  }

  /**
   * When the stack at p is replaced and p is among the first m rows and n columns, the count of
   * each id among the pieces changes by its change in the stack at p.
   */
  lemma GridPiecesChange(grid: Grid, g: Grid, p: Position, m: nat, n: nat, id: PieceId)
    requires SameElsewhere(grid, g, p) && 0 <= p.row < m && 0 <= p.col < n
    ensures multiset(GridPieces(g, m, n))[id] + multiset(StackAt(grid, p))[id] ==
      multiset(GridPieces(grid, m, n))[id] + multiset(StackAt(g, p))[id]
  {
    RowPiecesChange(grid, g, p, n, id);
    GridRowsChange(grid, g, p, m, n);
    FlattenUpdate(GridRows(grid, m, n), p.row, RowPieces(g, p.row, n), id);
  }

  /** Placing adds exactly one entry for the id to the board's pieces, when the position is on the board. */
  lemma PlaceCellsPieces(grid: Grid, size: nat, id: PieceId, p: Position)
    requires Shaped(grid, size)
    ensures multiset(AllPieces(PlaceCells(grid, id, p), size)) ==
      multiset(AllPieces(grid, size)) + (if IsValidPosition(p, size) then multiset{id} else multiset{})
  {
    if InGrid(grid, p) {
      var g := PlaceCells(grid, id, p);
      forall x ensures multiset(AllPieces(g, size))[x] == multiset(AllPieces(grid, size))[x] + multiset{id}[x] {
        GridPiecesChange(grid, g, p, size, size, x);
      }
    }
  }

  /** A successful removal takes exactly one entry for the id off the board's pieces. */
  lemma RemoveCellsPieces(grid: Grid, size: nat, id: PieceId, p: Position)
    requires Shaped(grid, size)
    ensures CanRemove(grid, id, p) ==>
      multiset(AllPieces(RemoveCells(grid, id, p), size)) + multiset{id} == multiset(AllPieces(grid, size))
  {
    if CanRemove(grid, id, p) {
      RemoveCellsSpec(grid, id, p);
      var g := RemoveCells(grid, id, p);
      forall x ensures multiset(AllPieces(g, size))[x] + multiset{id}[x] == multiset(AllPieces(grid, size))[x] {
        GridPiecesChange(grid, g, p, size, size, x);
      }
    }
  }

  /** Moving never creates or destroys a piece, whether it lands on `to`, goes back to `from` or fails. */
  lemma MoveCellsPieces(grid: Grid, size: nat, id: PieceId, from: Position, to: Position)
    requires Shaped(grid, size)
    ensures multiset(AllPieces(MoveCells(grid, id, from, to), size)) == multiset(AllPieces(grid, size))
  {
    if CanRemove(grid, id, from) {
      var lifted := RemoveCells(grid, id, from);
      RemoveCellsPieces(grid, size, id, from);
      SetStackShaped(grid, size, from, StackAt(lifted, from));
      PlaceCellsPieces(lifted, size, id, to);
      PlaceCellsPieces(lifted, size, id, from);
    }
  }

  /** getPlayerPieces' filter: the ids, in order, whose piece belongs to the player. */
  function OwnedBy(ids: seq<PieceId>, arena: Arena, player: Player): seq<PieceId>
    requires forall id :: id in ids ==> id in arena
  {
    if ids == [] then []
    else
      (OwnedBy(ids[..|ids| - 1], arena, player) +
       (if arena[ids[|ids| - 1]].player == player then [ids[|ids| - 1]] else []))
  }

  /** The filter keeps every entry of the player's pieces, as often as it occurs, and drops the rest. */
  lemma {:induction false} OwnedBySpec(ids: seq<PieceId>, arena: Arena, player: Player)
    requires forall id :: id in ids ==> id in arena
    ensures forall id :: (multiset(OwnedBy(ids, arena, player))[id] ==
      if id in arena && arena[id].player == player then multiset(ids)[id] else 0)
    ensures |OwnedBy(ids, arena, player)| <= |ids|
  {
    if ids != [] {
      var init := ids[..|ids| - 1];
      assert ids == init + [ids[|ids| - 1]];
      OwnedBySpec(init, arena, player);
    }
  }

  // ---------------------------------------------------------------- zones

  /** getCellsInZone's zone argument. */
  datatype Zone = Start | Finish

  /** The zone marker of the cell for the player. */
  predicate InZone(cell: BoardCell, zone: Zone, player: Player) {
    var markers := if zone == Start then cell.isStartZone else cell.isFinishZone;
    if player == Player1 then markers.player1 else markers.player2
  }

  /** The rows that make up a zone of the player. */
  predicate ZoneRow(row: int, zone: Zone, player: Player) {
    if zone == Start then IsRowInStartZone(row, player) else IsRowInFinishZone(row, player)
  }

  /** The zone cells among the first n cells of a row. */
  function ZoneRowCells(grid: Grid, row: int, n: nat, zone: Zone, player: Player): seq<BoardCell> {
    if n == 0 then []
    else
      (ZoneRowCells(grid, row, n - 1, zone, player) +
       (if InGrid(grid, Position(row, n - 1)) && InZone(grid[row][n - 1], zone, player) then [grid[row][n - 1]] else []))
  }

  /** getCellsInZone: the zone cells among the first m rows, row-major. */
  function ZoneCells(grid: Grid, m: nat, n: nat, zone: Zone, player: Player): seq<BoardCell> {
    if m == 0 then [] else ZoneCells(grid, m - 1, n, zone, player) + ZoneRowCells(grid, m - 1, n, zone, player)
  }

  lemma {:induction false} ZoneRowCellsSpec(grid: Grid, size: nat, row: int, n: nat, zone: Zone, player: Player)
    requires Shaped(grid, size) && 0 <= row < size && n <= size
    ensures forall cell :: cell in ZoneRowCells(grid, row, n, zone, player) <==>
      exists c :: 0 <= c < n && cell == grid[row][c] && ZoneRow(row, zone, player)
  {
    if n > 0 {
      ZoneRowCellsSpec(grid, size, row, n - 1, zone, player);
      assert grid[row][n - 1].(pieces := []) == InitialCell(row, n - 1);
    }
  }

  lemma {:induction false} ZoneCellsSpec(grid: Grid, size: nat, m: nat, zone: Zone, player: Player)
    requires Shaped(grid, size) && m <= size
    ensures forall cell :: cell in ZoneCells(grid, m, size, zone, player) <==>
      exists r, c :: 0 <= r < m && 0 <= c < size && cell == grid[r][c] && ZoneRow(r, zone, player)
  {
    if m > 0 {
      ZoneCellsSpec(grid, size, m - 1, zone, player);
      ZoneRowCellsSpec(grid, size, m - 1, size, zone, player);
    }
  }

  lemma RowStacksStep(acc: seq<PieceId>, grid: Grid, row: int, n: nat)
    ensures acc + Flatten(RowStacks(grid, row, n + 1)) == acc + Flatten(RowStacks(grid, row, n)) + StackAt(grid, Position(row, n))
  {
    assert RowStacks(grid, row, n + 1) == RowStacks(grid, row, n) + [StackAt(grid, Position(row, n))];
    FlattenSnoc(RowStacks(grid, row, n), StackAt(grid, Position(row, n)));
  }

  lemma GridRowsStep(grid: Grid, m: nat, n: nat)
    ensures GridPieces(grid, m + 1, n) == GridPieces(grid, m, n) + RowPieces(grid, m, n)
  {
    assert GridRows(grid, m + 1, n) == GridRows(grid, m, n) + [RowPieces(grid, m, n)];
    FlattenSnoc(GridRows(grid, m, n), RowPieces(grid, m, n));
  }

  // ---------------------------------------------------------------- the class

  /** The board object: its grid and its size, updated in place by placing, removing and moving. */
  class Board {
    var cells: Grid
    var size: nat

    /** The grid is size-by-size and only its stacks have changed since it was created. */
    predicate Valid()
      reads this
    {
      Shaped(cells, size)
    }

    /** new Board(size): a fresh board. */
    constructor(size: nat)
      ensures this.size == size && cells == InitialCells(size, size) && Valid()
    {
      var board := InitializeBoard(size);
      this.size := size;
      cells := board;
      new;
      InitialCellsSpec(size);
    }

    /** getCell: the cell at a position of the board, None off the board. */
    function GetCell(position: Position): (cell: Option<BoardCell>)
      reads this
      ensures Valid() ==> (cell.Some? <==> IsValidPosition(position, size))
      ensures Valid() && cell.Some? ==> cell.value.position == position && cell.value.pieces == StackAt(cells, position)
    {
      if IsValidPosition(position, size) && InGrid(cells, position) then Some(cells[position.row][position.col])
      else None
    }

    /** getPiecesAt: the stack at a position, bottom first; empty off the board. */
    function GetPiecesAt(position: Position): (stack: seq<PieceId>)
      reads this
      ensures Valid() ==> stack == StackAt(cells, position)
      ensures !IsValidPosition(position, size) ==> stack == []
    {
      match GetCell(position)
      case Some(cell) => cell.pieces
      case None => []
    }

    /** isInStartZone: on the board and in one of the player's start rows. */
    predicate IsInStartZone(position: Position, player: Player)
      reads this
      ensures Valid() ==> (IsInStartZone(position, player) <==>
        IsValidPosition(position, size) && IsRowInStartZone(position.row, player))
    {
      match GetCell(position)
      case None => false
      case Some(cell) => if player == Player1 then cell.isStartZone.player1 else cell.isStartZone.player2
    }

    /** isInFinishZone: on the board and in one of the player's finish rows. */
    predicate IsInFinishZone(position: Position, player: Player)
      reads this
      ensures Valid() ==> (IsInFinishZone(position, player) <==>
        IsValidPosition(position, size) && IsRowInFinishZone(position.row, player))
    {
      match GetCell(position)
      case None => false
      case Some(cell) => if player == Player1 then cell.isFinishZone.player1 else cell.isFinishZone.player2
    }

    /** isEmpty: no piece at the position; true off the board. */
    predicate IsEmpty(position: Position)
      reads this
      ensures Valid() ==> (IsEmpty(position) <==> StackAt(cells, position) == [])
      ensures !IsValidPosition(position, size) ==> IsEmpty(position)
    {
      match GetCell(position)
      case Some(cell) => |cell.pieces| == 0
      case None => true
    }

    /** placePiece: push the piece on top of the stack, or fail off the board. */
    method PlacePiece(piece: ChessPiece, position: Position) returns (ok: bool, placed: ChessPiece)
      requires Valid()
      modifies this
      ensures Valid() && size == old(size)
      ensures ok <==> IsValidPosition(position, size)
      ensures cells == PlaceCells(old(cells), piece.id, position)
      ensures placed == if ok then PlacedPiece(piece, position) else piece
    {
      var cell := GetCell(position);
      if cell.None? {
        return false, piece;
      }
      SetStackShaped(cells, size, position, cell.value.pieces + [piece.id]);
      cells := SetStack(cells, position, cell.value.pieces + [piece.id]);
      return true, PlacedPiece(piece, position);
    }

    /** removePiece: take the first entry with the piece's id out of the stack, or fail. */
    method RemovePiece(piece: ChessPiece, position: Position) returns (ok: bool, lifted: ChessPiece)
      requires Valid()
      modifies this
      ensures Valid() && size == old(size)
      ensures ok <==> CanRemove(old(cells), piece.id, position)
      ensures cells == RemoveCells(old(cells), piece.id, position)
      ensures lifted == if ok then LiftedPiece(piece) else piece
    {
      var cell := GetCell(position);
      if cell.None? {
        return false, piece;
      }
      var index := IndexOf(cell.value.pieces, piece.id);
      if index == -1 {
        return false, piece;
      }
      SetStackShaped(cells, size, position, RemoveAt(cell.value.pieces, index));
      cells := SetStack(cells, position, RemoveAt(cell.value.pieces, index));
      return true, LiftedPiece(piece);
    }

    /**
     * movePiece: remove from `from`, then place on `to`; when `to` is off the board the piece
     * goes back on top of `from` and the move reports failure.
     */
    method MovePiece(piece: ChessPiece, from: Position, to: Position) returns (ok: bool, moved: ChessPiece)
      requires Valid()
      modifies this
      ensures Valid() && size == old(size)
      ensures ok <==> CanRemove(old(cells), piece.id, from) && IsValidPosition(to, size)
      ensures cells == MoveCells(old(cells), piece.id, from, to)
      ensures moved == if !CanRemove(old(cells), piece.id, from) then piece
        else PlacedPiece(piece, if ok then to else from)
    {
      var removed, lifted := RemovePiece(piece, from);
      if !removed {
        return false, piece;
      }
      ShapedInGrid(cells, size, to);
      var placed, landed := PlacePiece(lifted, to);
      if !placed {
        ShapedInGrid(cells, size, from);
        var _, back := PlacePiece(lifted, from);
        return false, back;
      }
      return true, landed;
    }

    /** The inner loop of getCellsInZone: append the zone cells of one row. */
    method AppendZoneRow(acc: seq<BoardCell>, row: nat, zone: Zone, player: Player) returns (result: seq<BoardCell>)
      ensures result == acc + ZoneRowCells(cells, row, size, zone, player)
    {
      result := acc;
      for col := 0 to size
        invariant result == acc + ZoneRowCells(cells, row, col, zone, player)
      {
        var p := Position(row, col);
        if InGrid(cells, p) && InZone(cells[row][col], zone, player) {
          result := result + [cells[row][col]];
        }
      }
    }

    /** getCellsInZone: the cells of the zone, row by row. */
    method GetCellsInZone(zone: Zone, player: Player) returns (result: seq<BoardCell>)
      ensures result == ZoneCells(cells, size, size, zone, player)
    {
      result := [];
      for row := 0 to size
        invariant result == ZoneCells(cells, row, size, zone, player)
      {
        result := AppendZoneRow(result, row, zone, player);
      }
    }

    /** The inner loop of getAllPieces: append the stacks of one row. */
    method AppendRowPieces(acc: seq<PieceId>, row: nat) returns (pieces: seq<PieceId>)
      ensures pieces == acc + RowPieces(cells, row, size)
    {
      pieces := acc;
      for col := 0 to size
        invariant pieces == acc + Flatten(RowStacks(cells, row, col))
      {
        RowStacksStep(acc, cells, row, col);
        if InGrid(cells, Position(row, col)) {
          pieces := pieces + cells[row][col].pieces;
        }
      }
    }

    /** getAllPieces: every stacked id, row by row. */
    method GetAllPieces() returns (pieces: seq<PieceId>)
      ensures pieces == AllPieces(cells, size)
    {
      pieces := [];
      for row := 0 to size
        invariant pieces == GridPieces(cells, row, size)
      {
        GridRowsStep(cells, row, size);
        pieces := AppendRowPieces(pieces, row);
      }
    }

    /** getPlayerPieces: the player's pieces among all pieces, in board order. */
    method GetPlayerPieces(player: Player, arena: Arena) returns (owned: seq<PieceId>)
      requires forall id :: id in AllPieces(cells, size) ==> id in arena
      ensures owned == OwnedBy(AllPieces(cells, size), arena, player)
    {
      var all := GetAllPieces();
      owned := OwnedBy(all, arena, player);
    }

    /** The inner loop of clear: empty every stack of one row. */
    method ClearRow(row: nat)
      requires Valid() && row < size
      modifies this
      ensures Valid() && size == old(size)
      ensures forall c :: 0 <= c < size ==> StackAt(cells, Position(row, c)) == []
      ensures forall q: Position :: q.row != row ==> StackAt(cells, q) == StackAt(old(cells), q)
    {
      for col := 0 to size
        invariant Valid() && size == old(size)
        invariant forall c :: 0 <= c < col ==> StackAt(cells, Position(row, c)) == []
        invariant forall q: Position :: q.row != row ==> StackAt(cells, q) == StackAt(old(cells), q)
      {
        var p := Position(row, col);
        if InGrid(cells, p) {
          SetStackShaped(cells, size, p, []);
          cells := SetStack(cells, p, []);
        }
      }
    }

    /** clear: every stack empty, zone markers untouched, so the board is a fresh one again. */
    method Clear()
      requires Valid()
      modifies this
      ensures Valid() && size == old(size) && cells == InitialCells(size, size)
    {
      for row := 0 to size
        invariant Valid() && size == old(size)
        invariant forall r, c :: 0 <= r < row && 0 <= c < size ==> StackAt(cells, Position(r, c)) == []
      {
        ClearRow(row);
      }
      InitialCellsSpec(size);
      ShapedEqual(cells, InitialCells(size, size), size);
    }

    /** The inner loop of clone: copy the non-empty stacks of one row of the source. */
    method CopyRow(source: Board, row: nat)
      requires Valid() && source.Valid() && source != this && row < size && size == source.size
      requires forall c :: 0 <= c < size ==> StackAt(cells, Position(row, c)) == []
      modifies this
      ensures Valid() && size == old(size)
      ensures forall c :: 0 <= c < size ==> StackAt(cells, Position(row, c)) == StackAt(source.cells, Position(row, c))
      ensures forall q: Position :: q.row != row ==> StackAt(cells, q) == StackAt(old(cells), q)
    {
      for col := 0 to size
        invariant Valid() && size == old(size)
        invariant forall c :: 0 <= c < size ==>
          StackAt(cells, Position(row, c)) == if c < col then StackAt(source.cells, Position(row, c)) else []
        invariant forall q: Position :: q.row != row ==> StackAt(cells, q) == StackAt(old(cells), q)
      {
        var p := Position(row, col);
        if InGrid(source.cells, p) && |source.cells[row][col].pieces| > 0 {
          SetStackShaped(cells, size, p, source.cells[row][col].pieces);
          cells := SetStack(cells, p, source.cells[row][col].pieces);
        }
      }
    }

    /** clone: a new board with the same size, the same stacks and the same zone markers. */
    method Clone() returns (copy: Board)
      requires Valid()
      ensures fresh(copy) && copy.Valid() && copy.size == size && copy.cells == cells
    {
      copy := new Board(size);
      for row := 0 to size
        invariant fresh(copy) && copy.Valid() && copy.size == size
        invariant forall r, c :: 0 <= r < size && 0 <= c < size ==>
          StackAt(copy.cells, Position(r, c)) == if r < row then StackAt(cells, Position(r, c)) else []
      {
        copy.CopyRow(this, row);
      }
      ShapedEqual(copy.cells, cells, size);
    }
  }
}
