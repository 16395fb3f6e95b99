/**
 * Game pieces as the engine sees them. The piece catalog and the rotation
 * rules live in GamePiece.java, which is not part of this model: the catalog
 * is a parameter (fifteen 3x3 footprints) and a piece is a colour value plus
 * its current footprint.
 */
module Pieces {

  /** Number of shapes in the catalog: spawnPiece draws `(int) (Math.random() * 15)`. */
  const PieceCount := 15

  /** A 3x3 footprint, `f[i][j] > 0` where the piece occupies cell (i, j). */
  type Footprint = seq<seq<int>>

  predicate IsFootprint(f: Footprint)
  {
    |f| == 3 && forall i :: 0 <= i < 3 ==> |f[i]| == 3
  }

  /** A piece: its colour value (1..15, never 0) and its footprint in the current rotation. */
  datatype Piece = Piece(value: int, blocks: Footprint)

  /** A catalog has one footprint per piece index. */
  predicate IsCatalog(shapes: seq<Footprint>)
  {
    |shapes| == PieceCount && forall i :: 0 <= i < |shapes| ==> IsFootprint(shapes[i])
  }

  /** A piece value names a catalog entry. */
  predicate IsPieceValue(v: int)
  {
    1 <= v <= PieceCount
  }

  /**
   * GamePiece.createPiece(index): the catalog shape `index`, unrotated, whose
   * colour value is `index + 1`, so that `value - 1` recovers the index.
   */
  function CreatePiece(shapes: seq<Footprint>, index: int): (p: Piece)
    requires IsCatalog(shapes) && 0 <= index < PieceCount
    ensures IsPieceValue(p.value) && p.value - 1 == index
    ensures IsFootprint(p.blocks) && p.blocks == shapes[index]
  {
    Piece(index + 1, shapes[index])
  }
}
