/**
 * The four piece shapes and the edge partner table (src/constants/chess/pieces.ts).
 */
module Pieces {
  import opened ChessTypes

  const Piece1: PieceShape := PieceShape(1, Edges(Minus, BackMinus, BackMinus, Minus))
  const Piece2: PieceShape := PieceShape(2, Edges(Plus, Minus, BackMinus, BackPlus))
  const Piece3: PieceShape := PieceShape(3, Edges(BackPlus, Minus, BackMinus, Plus))
  const Piece4: PieceShape := PieceShape(4, Edges(BackPlus, Plus, BackPlus, Plus))

  /** PIECE_SHAPES, keyed by shape id. */
  const PieceShapes: map<int, PieceShape> := map[1 := Piece1, 2 := Piece2, 3 := Piece3, 4 := Piece4]

  /** EDGE_MATCH_MAP: convex fits concave, within the same (forward or backward) family. */
  function EdgeMatch(e: EdgeType): EdgeType {
    match e
    case Plus => Minus
    case Minus => Plus
    case BackPlus => BackMinus
    case BackMinus => BackPlus
  }

  /** The forward family '1+' / '1-' (as opposed to the backward '1`+' / '1`-'). */
  predicate IsForward(e: EdgeType) {
    e == Plus || e == Minus
  }

  /** isValidShapeId */
  predicate IsValidShapeId(shapeId: int) {
    shapeId >= 1 && shapeId <= 4
  }

  /** getValidShapeIds */
  function GetValidShapeIds(): seq<int> {
    [1, 2, 3, 4]
  }

  /** getPieceShape; the lookup of an unknown id throws in the source and is excluded here. */
  function GetPieceShape(shapeId: int): (s: PieceShape)
    requires IsValidShapeId(shapeId)
    ensures s.id == shapeId
  {
    if shapeId == 1 then Piece1
    else if shapeId == 2 then Piece2
    else if shapeId == 3 then Piece3
    else Piece4
  }

  /** EDGE_MATCH_MAP is an involution without fixed points that keeps each family apart. */
  lemma EdgeMatchInvolution(e: EdgeType)
    ensures EdgeMatch(EdgeMatch(e)) == e
    ensures EdgeMatch(e) != e
    ensures IsForward(EdgeMatch(e)) == IsForward(e)
  {
  }

  /** The three descriptions of the valid shape ids agree: the predicate, the list and the table. */
  lemma ValidShapeIds(shapeId: int)
    ensures IsValidShapeId(shapeId) <==> shapeId in GetValidShapeIds()
    ensures IsValidShapeId(shapeId) <==> shapeId in PieceShapes
    ensures IsValidShapeId(shapeId) ==> PieceShapes[shapeId] == GetPieceShape(shapeId)
  {
  }

  /** Every table entry is filed under its own id, and the four shapes are pairwise different. */
  lemma PieceShapesTable()
    ensures forall id :: id in PieceShapes ==> PieceShapes[id].id == id
    ensures forall i, j :: i in PieceShapes && j in PieceShapes && i != j ==>
      PieceShapes[i].edges != PieceShapes[j].edges
    ensures GetPieceShape(1).edges == Edges(Minus, BackMinus, BackMinus, Minus)
  {
  }
}
