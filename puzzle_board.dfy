/**
 * The 4-by-4 picture puzzle (src/classes/PuzzleBoard.ts): a row-major array of drop cells,
 * four numbered pieces that start in the tray, and a status that says whether pieces 1..4
 * stand in cells 0..3 in order.
 *
 * A cell refers to one of the piece objects; here that reference is the piece's index in the
 * piece list, so that writing a piece's fields is seen through every cell that refers to it.
 * Each operation is first a function on a State value, and the class PuzzleBoard is proved to
 * follow those functions.
 */
module Puzzle {
  import opened Util

  /** GameStatus */
  datatype GameStatus = Idle | Playing | Won

  /** PuzzlePiece: currentPosition -1 means in the tray. */
  datatype PuzzlePiece = PuzzlePiece(id: int, currentPosition: int, isPlaced: bool)

  /** BoardCell: `piece` is the index, in the piece list, of the piece object the cell holds. */
  datatype BoardCell = BoardCell(position: int, piece: Option<nat>, isDropZone: bool)

  /** The fields of a PuzzleBoard other than its size. */
  datatype State = State(board: seq<BoardCell>, pieces: seq<PuzzlePiece>, status: GameStatus)

  /** What an operation reports and leaves. */
  datatype Result = Result(ok: bool, state: State)

  // ---------------------------------------------------------------- construction

  /** initBoard: size * size empty drop cells numbered row-major. */
  function InitialBoard(size: nat): seq<BoardCell> {
    seq(size * size, i => BoardCell(i, None, true))
  }

  /** initPieces: pieces 1..4, all in the tray. */
  function InitialPieces(): seq<PuzzlePiece> {
    seq(4, i => PuzzlePiece(i + 1, -1, false))
  }

  function InitialState(size: nat): State {
    State(InitialBoard(size), InitialPieces(), Idle)
  }

  // ---------------------------------------------------------------- the invariant

  /** Every cell refers to an existing piece object. */
  predicate RefsKnown(board: seq<BoardCell>, pieces: seq<PuzzlePiece>) {
    forall i :: 0 <= i < |board| && board[i].piece.Some? ==> board[i].piece.value < |pieces|
  }

  /**
   * The back-reference invariant: the cells are numbered and droppable, the pieces are 1..4 in
   * order, a held piece records the cell that holds it, a placed piece's cell holds it, and a
   * piece in the tray has position -1.
   */
  predicate Consistent(s: State) {
    RefsKnown(s.board, s.pieces) &&
    |s.pieces| == 4 &&
    (forall k :: 0 <= k < |s.pieces| ==> s.pieces[k].id == k + 1) &&
    (forall i :: 0 <= i < |s.board| ==> s.board[i].position == i && s.board[i].isDropZone) &&
    (forall i :: 0 <= i < |s.board| && s.board[i].piece.Some? ==>
      s.pieces[s.board[i].piece.value].isPlaced && s.pieces[s.board[i].piece.value].currentPosition == i) &&
    (forall k :: 0 <= k < |s.pieces| && s.pieces[k].isPlaced ==>
      0 <= s.pieces[k].currentPosition < |s.board| && s.board[s.pieces[k].currentPosition].piece == Some(k)) &&
    (forall k :: 0 <= k < |s.pieces| && !s.pieces[k].isPlaced ==> s.pieces[k].currentPosition == -1)
  }

  /** A new or reset board: size * size empty drop cells, pieces 1..4 in the tray, status idle. */
  lemma InitialSpec(size: nat)
    ensures var s := InitialState(size);
      Consistent(s) && |s.board| == size * size && s.status == Idle &&
      (forall i :: 0 <= i < |s.board| ==> s.board[i] == BoardCell(i, None, true)) &&
      |s.pieces| == 4 && (forall k :: 0 <= k < 4 ==> s.pieces[k] == PuzzlePiece(k + 1, -1, false))
  {
  }

  /** Under the invariant a piece stands in at most one cell. */
  lemma OneCellPerPiece(s: State, i: int, j: int)
    requires Consistent(s) && 0 <= i < |s.board| && 0 <= j < |s.board|
    requires s.board[i].piece.Some? && s.board[i].piece == s.board[j].piece
    ensures i == j
  {
    var k := s.board[i].piece.value;
    assert s.pieces[k].currentPosition == i;
    assert s.pieces[k].currentPosition == j;
  }

  /** Under the invariant a piece is in the tray exactly when no cell holds it. */
  lemma TrayIffNoCell(s: State, k: nat)
    requires Consistent(s) && k < |s.pieces|
    ensures !s.pieces[k].isPlaced <==> forall i :: 0 <= i < |s.board| ==> s.board[i].piece != Some(k)
  {
    if s.pieces[k].isPlaced {
      var c := s.pieces[k].currentPosition;
      assert s.board[c].piece == Some(k);
    }
  }

  // ---------------------------------------------------------------- lookups

  /** pieces.find(p => p.id === pieceId): the index of the first piece with that id. */
  function FindPiece(pieces: seq<PuzzlePiece>, id: int): (r: Option<nat>)
    ensures r.Some? ==> (r.value < |pieces| && pieces[r.value].id == id &&
      forall k :: 0 <= k < r.value ==> pieces[k].id != id)
    ensures r.None? ==> forall k :: 0 <= k < |pieces| ==> pieces[k].id != id
  {
    if |pieces| == 0 then None
    else if pieces[0].id == id then Some(0)
    else match FindPiece(pieces[1..], id)
      case None => None
      case Some(k) => Some(k + 1)
  }

  /** Under the invariant piece `id` is found exactly for ids 1..4, at index id - 1. */
  lemma FindKnown(s: State, id: int)
    requires Consistent(s)
    ensures FindPiece(s.pieces, id) == if 1 <= id <= 4 then Some(id - 1) else None
  {
    var r := FindPiece(s.pieces, id);
    if 1 <= id <= 4 {
      assert s.pieces[id - 1].id == id;
    }
    if r.Some? {
      assert s.pieces[r.value].id == r.value + 1;
    }
  }

  /** getAvailablePieces: the pieces in the tray, in list order. */
  function Available(pieces: seq<PuzzlePiece>): (r: seq<PuzzlePiece>)
    ensures |r| <= |pieces|
    ensures forall p :: p in r <==> p in pieces && !p.isPlaced
  {
    if |pieces| == 0 then []
    else
      var rest := Available(pieces[..|pieces| - 1]);
      var last := pieces[|pieces| - 1];
      assert pieces == pieces[..|pieces| - 1] + [last];
      if last.isPlaced then rest else rest + [last]
  }

  /** The pieces in the tray are exactly the pieces of no cell. */
  lemma AvailableSpec(s: State, k: nat)
    requires Consistent(s) && k < |s.pieces|
    ensures s.pieces[k] in Available(s.pieces) <==> forall i :: 0 <= i < |s.board| ==> s.board[i].piece != Some(k)
  {
    TrayIffNoCell(s, k);
    if s.pieces[k] in Available(s.pieces) {
      var j :| 0 <= j < |s.pieces| && s.pieces[j] == s.pieces[k];
      assert s.pieces[j].id == j + 1;
    }
  }

  // ---------------------------------------------------------------- the win check

  /** Cells 0..3 (as many of them as the board has) hold pieces 1..4 in order. */
  predicate TopRowComplete(board: seq<BoardCell>, pieces: seq<PuzzlePiece>)
    requires RefsKnown(board, pieces)
  {
    forall i :: 0 <= i < |board| && i < 4 ==> board[i].piece.Some? && pieces[board[i].piece.value].id == i + 1
  }

  predicate AllPlaced(pieces: seq<PuzzlePiece>) {
    forall k :: 0 <= k < |pieces| ==> pieces[k].isPlaced
  }

  /** checkWinCondition: won on a complete top row, else playing when every piece is placed, else idle. */
  function WinChecked(s: State): (r: State)
    requires RefsKnown(s.board, s.pieces)
    ensures r.board == s.board && r.pieces == s.pieces
  {
    s.(status := if TopRowComplete(s.board, s.pieces) then Won else if AllPlaced(s.pieces) then Playing else Idle)
  }

  /**
   * On a board of at least four cells the top row is complete exactly when piece k stands in
   * cell k for k = 0..3; so a won board has every piece placed.
   */
  lemma WonMeansSolved(s: State)
    requires Consistent(s) && |s.board| >= 4
    ensures TopRowComplete(s.board, s.pieces) <==>
      forall k :: 0 <= k < 4 ==> s.pieces[k].isPlaced && s.pieces[k].currentPosition == k
    ensures WinChecked(s).status == Won ==> AllPlaced(s.pieces)
  {
    if TopRowComplete(s.board, s.pieces) {
      forall k | 0 <= k < 4 ensures s.pieces[k].isPlaced && s.pieces[k].currentPosition == k {
        var j := s.board[k].piece.value;
        assert s.pieces[j].id == j + 1;
      }
    }
    if forall k :: 0 <= k < 4 ==> s.pieces[k].isPlaced && s.pieces[k].currentPosition == k {
      forall i | 0 <= i < |s.board| && i < 4 ensures s.board[i].piece.Some? && s.pieces[s.board[i].piece.value].id == i + 1 {
        assert s.pieces[i].isPlaced;
      }
    }
  }

  /** The status checkWinCondition sets: each of the three cases, both directions. */
  lemma StatusSpec(s: State)
    requires RefsKnown(s.board, s.pieces)
    ensures WinChecked(s).status == Won <==> TopRowComplete(s.board, s.pieces)
    ensures WinChecked(s).status == Playing <==> !TopRowComplete(s.board, s.pieces) && AllPlaced(s.pieces)
    ensures WinChecked(s).status == Idle <==> !TopRowComplete(s.board, s.pieces) && !AllPlaced(s.pieces)
  {
  }

  // ---------------------------------------------------------------- the operations

  predicate InBoard(board: seq<BoardCell>, position: int) {
    0 <= position < |board|
  }

  /** removePiece: empty an occupied cell and send its piece to the tray; the status is not rechecked. */
  function RemoveOutcome(s: State, position: int): (r: Result)
    requires RefsKnown(s.board, s.pieces)
    ensures RefsKnown(r.state.board, r.state.pieces)
  {
    if !InBoard(s.board, position) || s.board[position].piece.None? then Result(false, s)
    else
      var k := s.board[position].piece.value;
      Result(true, s.(pieces := s.pieces[k := s.pieces[k].(currentPosition := -1, isPlaced := false)],
                      board := s.board[position := s.board[position].(piece := None)]))
  }

  /**
   * The first two steps of placePiece for piece k: the cell's occupant goes to the tray, then
   * the cell the piece records as its own is emptied.
   */
  function Cleared(s: State, k: nat, position: int): (r: State)
    requires RefsKnown(s.board, s.pieces) && k < |s.pieces| && InBoard(s.board, position)
    ensures RefsKnown(r.board, r.pieces) && |r.board| == |s.board| && |r.pieces| == |s.pieces| && r.status == s.status
  {
    var s1 := if s.board[position].piece.Some? then RemoveOutcome(s, position).state else s;
    var piece := s1.pieces[k];
    if piece.isPlaced && InBoard(s1.board, piece.currentPosition)
    then s1.(board := s1.board[piece.currentPosition := s1.board[piece.currentPosition].(piece := None)])
    else s1
  }

  /**
   * placePiece: refused for an unknown id, a missing cell or a cell that is not a drop zone.
   * Otherwise the cell's occupant goes to the tray, the piece's previous cell is emptied, the
   * piece lands in the cell, and the status is rechecked.
   */
  function PlaceOutcome(s: State, pieceId: int, position: int): (r: Result)
    requires RefsKnown(s.board, s.pieces)
    ensures RefsKnown(r.state.board, r.state.pieces)
  {
    var found := FindPiece(s.pieces, pieceId);
    if found.None? || !InBoard(s.board, position) || !s.board[position].isDropZone then Result(false, s)
    else
      var k := found.value;
      var s2 := Cleared(s, k, position);
      var s3 := s2.(pieces := s2.pieces[k := s2.pieces[k].(currentPosition := position, isPlaced := true)],
                    board := s2.board[position := s2.board[position].(piece := Some(k))]);
      Result(true, WinChecked(s3))
  }

  /** movePiece: refused from an empty or missing cell, otherwise placePiece of the cell's piece. */
  function MoveOutcome(s: State, fromPosition: int, toPosition: int): (r: Result)
    requires RefsKnown(s.board, s.pieces)
    ensures RefsKnown(r.state.board, r.state.pieces)
  {
    if !InBoard(s.board, fromPosition) || s.board[fromPosition].piece.None? then Result(false, s)
    else PlaceOutcome(s, s.pieces[s.board[fromPosition].piece.value].id, toPosition)
  }

  // ---------------------------------------------------------------- what the operations promise

  /** removePiece fails exactly on a missing or empty cell; otherwise only that cell and its piece change. */
  lemma RemoveSpec(s: State, position: int)
    requires Consistent(s)
    ensures var r := RemoveOutcome(s, position);
      (r.ok <==> InBoard(s.board, position) && s.board[position].piece.Some?) &&
      (!r.ok ==> r.state == s) &&
      (r.ok ==>
        var k := s.board[position].piece.value;
        r.state.status == s.status &&
        r.state.board == s.board[position := s.board[position].(piece := None)] &&
        r.state.pieces == s.pieces[k := PuzzlePiece(k + 1, -1, false)] &&
        Consistent(r.state))
  {
    var r := RemoveOutcome(s, position);
    if r.ok {
      var k := s.board[position].piece.value;
      forall j | 0 <= j < |r.state.pieces| && r.state.pieces[j].isPlaced
        ensures r.state.board[r.state.pieces[j].currentPosition].piece == Some(j)
      {
        assert j != k;
        assert s.pieces[j].currentPosition != position;
      }
    }
  }

  /** placePiece fails exactly for an id outside 1..4 or a missing cell, and then changes nothing. */
  lemma PlaceRefused(s: State, pieceId: int, position: int)
    requires Consistent(s)
    ensures PlaceOutcome(s, pieceId, position).ok <==> 1 <= pieceId <= 4 && InBoard(s.board, position)
    ensures !PlaceOutcome(s, pieceId, position).ok ==> PlaceOutcome(s, pieceId, position).state == s
  {
    FindKnown(s, pieceId);
  }

  /**
   * What the first two steps of placePiece leave: no cell holds the piece, the target cell is
   * empty, the former occupant is in the tray, and the piece's former cell is empty.
   */
  lemma ClearedSpec(s: State, k: nat, position: int)
    requires Consistent(s) && k < 4 && InBoard(s.board, position)
    ensures var s2 := Cleared(s, k, position);
      var occupant := s.board[position].piece;
      var from := s.pieces[k].currentPosition;
      (forall i :: 0 <= i < |s2.board| ==> s2.board[i].piece != Some(k)) &&
      s2.board[position].piece.None? &&
      (s.pieces[k].isPlaced ==> s2.board[from].piece.None?) &&
      (forall i :: 0 <= i < |s.board| && i != position && (!s.pieces[k].isPlaced || i != from) ==> s2.board[i] == s.board[i]) &&
      (occupant.Some? && occupant.value != k ==> s2.pieces[occupant.value] == PuzzlePiece(occupant.value + 1, -1, false)) &&
      (forall j :: 0 <= j < 4 && occupant != Some(j) ==> s2.pieces[j] == s.pieces[j]) &&
      (forall j :: 0 <= j < 4 ==> s2.pieces[j].id == j + 1) &&
      (forall i :: 0 <= i < |s2.board| ==> s2.board[i].position == i && s2.board[i].isDropZone) &&
      (forall i :: 0 <= i < |s2.board| && s2.board[i].piece.Some? ==>
        s2.pieces[s2.board[i].piece.value].isPlaced && s2.pieces[s2.board[i].piece.value].currentPosition == i) &&
      (forall j :: 0 <= j < 4 && j != k && s2.pieces[j].isPlaced ==>
        0 <= s2.pieces[j].currentPosition < |s2.board| && s2.board[s2.pieces[j].currentPosition].piece == Some(j)) &&
      (forall j :: 0 <= j < 4 && !s2.pieces[j].isPlaced ==> s2.pieces[j].currentPosition == -1)
  {
    var s1 := if s.board[position].piece.Some? then RemoveOutcome(s, position).state else s;
    if s.board[position].piece.Some? {
      RemoveSpec(s, position);
    }
    assert Consistent(s1);
    assert s1.pieces[k].isPlaced ==> s1.pieces[k].currentPosition != position;
  }

  /**
   * A successful placePiece: the cell holds the piece, which records the cell; the former
   * occupant, if another piece, is in the tray; the piece's former cell, if another cell, is
   * empty; every other cell and piece is as before; the status is rechecked.
   */
  lemma PlaceSpec(s: State, pieceId: int, position: int)
    requires Consistent(s) && 1 <= pieceId <= 4 && InBoard(s.board, position)
    ensures var r := PlaceOutcome(s, pieceId, position).state;
      var k := pieceId - 1;
      var occupant := s.board[position].piece;
      var from := s.pieces[k].currentPosition;
      r.board[position].piece == Some(k) && r.pieces[k] == PuzzlePiece(pieceId, position, true) &&
      (occupant.Some? && occupant.value != k ==> r.pieces[occupant.value] == PuzzlePiece(occupant.value + 1, -1, false)) &&
      (s.pieces[k].isPlaced && from != position ==> r.board[from].piece.None?) &&
      (forall i :: 0 <= i < |s.board| && i != position && (!s.pieces[k].isPlaced || i != from) ==> r.board[i] == s.board[i]) &&
      (forall j :: 0 <= j < 4 && j != k && occupant != Some(j) ==> r.pieces[j] == s.pieces[j]) &&
      |r.board| == |s.board| &&
      r == WinChecked(r)
  {
    FindKnown(s, pieceId);
    ClearedSpec(s, pieceId - 1, position);
  }

  /** The last step of placePiece: a piece nobody holds, dropped on an empty cell, keeps the invariant. */
  lemma PlacedConsistent(s2: State, k: nat, position: int)
    requires RefsKnown(s2.board, s2.pieces) && |s2.pieces| == 4 && k < 4 && InBoard(s2.board, position)
    requires forall j :: 0 <= j < |s2.pieces| ==> s2.pieces[j].id == j + 1
    requires forall i :: 0 <= i < |s2.board| ==> s2.board[i].position == i && s2.board[i].isDropZone
    requires forall i :: 0 <= i < |s2.board| ==> s2.board[i].piece != Some(k)
    requires s2.board[position].piece.None?
    requires forall i :: 0 <= i < |s2.board| && s2.board[i].piece.Some? ==>
      s2.pieces[s2.board[i].piece.value].isPlaced && s2.pieces[s2.board[i].piece.value].currentPosition == i
    requires forall j :: 0 <= j < |s2.pieces| && j != k && s2.pieces[j].isPlaced ==>
      0 <= s2.pieces[j].currentPosition < |s2.board| && s2.board[s2.pieces[j].currentPosition].piece == Some(j)
    requires forall j :: 0 <= j < |s2.pieces| && !s2.pieces[j].isPlaced ==> s2.pieces[j].currentPosition == -1
    ensures Consistent(WinChecked(s2.(pieces := s2.pieces[k := s2.pieces[k].(currentPosition := position, isPlaced := true)],
                                      board := s2.board[position := s2.board[position].(piece := Some(k))])))
  {
    var s3 := s2.(pieces := s2.pieces[k := s2.pieces[k].(currentPosition := position, isPlaced := true)],
                  board := s2.board[position := s2.board[position].(piece := Some(k))]);
    forall j | 0 <= j < 4 && s3.pieces[j].isPlaced
      ensures 0 <= s3.pieces[j].currentPosition < |s3.board| && s3.board[s3.pieces[j].currentPosition].piece == Some(j)
    {
      if j != k {
        assert s2.pieces[j].currentPosition != position;
      }
    }
  }

  /** Pieces 1..j stand in cells 0..j-1. */
  predicate SolvedUpTo(s: State, j: nat)
    requires |s.pieces| == 4 && j <= 4
  {
    forall k :: 0 <= k < j ==> s.pieces[k].isPlaced && s.pieces[k].currentPosition == k
  }

  /** Placing piece j + 1 in cell j keeps pieces 1..j in place. */
  lemma PlaceExtendsSolved(s: State, j: nat)
    requires Consistent(s) && |s.board| >= 4 && j < 4 && SolvedUpTo(s, j)
    ensures PlaceOutcome(s, j + 1, j).ok
    ensures Consistent(PlaceOutcome(s, j + 1, j).state) && SolvedUpTo(PlaceOutcome(s, j + 1, j).state, j + 1)
    ensures |PlaceOutcome(s, j + 1, j).state.board| == |s.board|
    ensures j == 3 ==> PlaceOutcome(s, j + 1, j).state.status == Won
  {
    PlaceRefused(s, j + 1, j);
    PlaceKeeps(s, j + 1, j);
    PlaceSpec(s, j + 1, j);
    var r := PlaceOutcome(s, j + 1, j).state;
    forall k | 0 <= k < j ensures r.pieces[k].isPlaced && r.pieces[k].currentPosition == k {
      assert s.board[j].piece != Some(k);
    }
    WonMeansSolved(r);
  }

  /** From any state of a board with at least four cells, placing pieces 1..4 in cells 0..3 in order wins. */
  lemma PlacingInOrderWins(s: State)
    requires Consistent(s) && |s.board| >= 4
    ensures var s4 := PlaceOutcome(PlaceOutcome(PlaceOutcome(PlaceOutcome(s, 1, 0).state, 2, 1).state, 3, 2).state, 4, 3).state;
      s4.status == Won
  {
    PlaceExtendsSolved(s, 0);
    var s1 := PlaceOutcome(s, 1, 0).state;
    PlaceExtendsSolved(s1, 1);
    var s2 := PlaceOutcome(s1, 2, 1).state;
    PlaceExtendsSolved(s2, 2);
    var s3 := PlaceOutcome(s2, 3, 2).state;
    PlaceExtendsSolved(s3, 3);
  }

  /** placePiece keeps the invariant, whether it succeeds or not. */
  lemma PlaceKeeps(s: State, pieceId: int, position: int)
    requires Consistent(s)
    ensures Consistent(PlaceOutcome(s, pieceId, position).state)
  {
    PlaceRefused(s, pieceId, position);
    if PlaceOutcome(s, pieceId, position).ok {
      FindKnown(s, pieceId);
      ClearedSpec(s, pieceId - 1, position);
      PlacedConsistent(Cleared(s, pieceId - 1, position), pieceId - 1, position);
    }
  }

  /** Placing a piece on the cell it already holds changes neither the cells nor the pieces. */
  lemma PlaceInPlace(s: State, k: nat)
    requires Consistent(s) && k < 4 && s.pieces[k].isPlaced
    ensures var r := PlaceOutcome(s, k + 1, s.pieces[k].currentPosition);
      r.ok && r.state.board == s.board && r.state.pieces == s.pieces
  {
    var p := s.pieces[k].currentPosition;
    FindKnown(s, k + 1);
    RemoveSpec(s, p);
    var r := PlaceOutcome(s, k + 1, p).state;
    assert r.board[p] == s.board[p];
    assert r.pieces[k] == s.pieces[k];
  }

  /** movePiece fails exactly from a missing or empty cell; otherwise it is placePiece of the cell's piece. */
  lemma MoveSpec(s: State, fromPosition: int, toPosition: int)
    requires Consistent(s)
    ensures var r := MoveOutcome(s, fromPosition, toPosition);
      (!InBoard(s.board, fromPosition) || s.board[fromPosition].piece.None? ==> r == Result(false, s)) &&
      (InBoard(s.board, fromPosition) && s.board[fromPosition].piece.Some? ==>
        r == PlaceOutcome(s, s.board[fromPosition].piece.value + 1, toPosition) &&
        (r.ok <==> InBoard(s.board, toPosition)))
    ensures Consistent(MoveOutcome(s, fromPosition, toPosition).state)
  {
    if InBoard(s.board, fromPosition) && s.board[fromPosition].piece.Some? {
      var k := s.board[fromPosition].piece.value;
      assert s.pieces[k].id == k + 1;
      PlaceRefused(s, k + 1, toPosition);
      PlaceKeeps(s, k + 1, toPosition);
    }
  }

  // ---------------------------------------------------------------- the puzzle object

  class PuzzleBoard {
    var board: seq<BoardCell>
    var pieces: seq<PuzzlePiece>
    var boardSize: nat
    var status: GameStatus

    function Snapshot(): State
      reads this
    {
      State(board, pieces, status)
    }

    /** The back-reference invariant, on a board of boardSize * boardSize cells. */
    predicate Valid()
      reads this
    {
      Consistent(Snapshot()) && |board| == boardSize * boardSize
    }

    /** new PuzzleBoard(size): size * size empty cells, pieces 1..4 in the tray, status idle. */
    constructor(size: nat)
      ensures Valid() && boardSize == size && Snapshot() == InitialState(size)
    {
      boardSize := size;
      board := InitialBoard(size);
      pieces := InitialPieces();
      status := Idle;
      new;
      InitialSpec(size);
    }

    /** checkWinCondition */
    method CheckWinCondition()
      requires RefsKnown(board, pieces)
      modifies this
      ensures Snapshot() == WinChecked(old(Snapshot())) && boardSize == old(boardSize)
    {
      var isTopRowComplete := TopRowComplete(board, pieces);
      if isTopRowComplete {
        status := Won;
      } else if AllPlaced(pieces) {
        status := Playing;
      } else {
        status := Idle;
      }
    }

    /** removePiece */
    method RemovePiece(position: int) returns (ok: bool)
      requires Valid()
      modifies this
      ensures Valid() && boardSize == old(boardSize)
      ensures Result(ok, Snapshot()) == RemoveOutcome(old(Snapshot()), position)
    {
      RemoveSpec(Snapshot(), position);
      if !InBoard(board, position) || board[position].piece.None? {
        return false;
      }
      var k := board[position].piece.value;
      pieces := pieces[k := pieces[k].(currentPosition := -1, isPlaced := false)];
      board := board[position := board[position].(piece := None)];
      ok := true;
    }

    /** placePiece */
    method PlacePiece(pieceId: int, position: int) returns (ok: bool)
      requires Valid()
      modifies this
      ensures Valid() && boardSize == old(boardSize)
      ensures Result(ok, Snapshot()) == PlaceOutcome(old(Snapshot()), pieceId, position)
    {
      ghost var s := Snapshot();
      PlaceKeeps(s, pieceId, position);
      var found := FindPiece(pieces, pieceId);
      if found.None? || !InBoard(board, position) || !board[position].isDropZone {
        return false;
      }
      var k := found.value;
      if board[position].piece.Some? {
        var _ := RemovePiece(position);
      }
      var piece := pieces[k];
      if piece.isPlaced && InBoard(board, piece.currentPosition) {
        board := board[piece.currentPosition := board[piece.currentPosition].(piece := None)];
      }
      pieces := pieces[k := pieces[k].(currentPosition := position, isPlaced := true)];
      board := board[position := board[position].(piece := Some(k))];
      CheckWinCondition();
      ok := true;
    }

    /** movePiece */
    method MovePiece(fromPosition: int, toPosition: int) returns (ok: bool)
      requires Valid()
      modifies this
      ensures Valid() && boardSize == old(boardSize)
      ensures Result(ok, Snapshot()) == MoveOutcome(old(Snapshot()), fromPosition, toPosition)
    {
      if !InBoard(board, fromPosition) || board[fromPosition].piece.None? {
        return false;
      }
      var piece := pieces[board[fromPosition].piece.value];
      ok := PlacePiece(piece.id, toPosition);
    }

    /** reset: a fresh board and tray of the same size, status idle. */
    method Reset()
      modifies this
      ensures Valid() && boardSize == old(boardSize) && Snapshot() == InitialState(boardSize)
    {
      board := InitialBoard(boardSize);
      pieces := InitialPieces();
      status := Idle;
      InitialSpec(boardSize);
    }

    /** getAvailablePieces */
    function GetAvailablePieces(): (r: seq<PuzzlePiece>)
      reads this
      ensures forall p :: p in r <==> p in pieces && !p.isPlaced
    {
      Available(pieces)
    }

    /** getPieceAt: the piece a cell holds, None for an empty or missing cell. */
    function GetPieceAt(position: int): (r: Option<PuzzlePiece>)
      requires RefsKnown(board, pieces)
      reads this
      ensures Valid() && r.Some? ==> r.value.isPlaced && r.value.currentPosition == position
      ensures r.None? <==> !InBoard(board, position) || board[position].piece.None?
    {
      if InBoard(board, position) && board[position].piece.Some? then Some(pieces[board[position].piece.value])
      else None
    }

    function GetBoard(): seq<BoardCell>
      reads this
    {
      board
    }

    function GetPieces(): seq<PuzzlePiece>
      reads this
    {
      pieces
    }

    function GetStatus(): GameStatus
      reads this
    {
      status
    }

    function GetBoardSize(): nat
      reads this
    {
      boardSize
    }
  }
}
