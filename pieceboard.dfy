/**
 * The 3 x 3 preview boards of PieceBoard.java: showing a piece rewrites all
 * nine cells, and a click on the board is forwarded to its listeners.
 */
module PieceBoard {
  import opened Pieces

  /** The side of a preview board. */
  const Side := 3

  /** What a preview board shows for piece p: its colour where its footprint is set, 0 elsewhere. */
  function Preview(p: Piece): (r: seq<seq<int>>)
    requires IsFootprint(p.blocks)
    ensures |r| == Side && forall i :: 0 <= i < Side ==> |r[i]| == Side
    // the cell rule
    ensures forall i, j :: 0 <= i < Side && 0 <= j < Side ==>
      (p.blocks[i][j] > 0 ==> r[i][j] == p.value) && (p.blocks[i][j] <= 0 ==> r[i][j] == 0)
    // a single colour: no non-zero value but the piece's own
    ensures forall i, j :: 0 <= i < Side && 0 <= j < Side ==> r[i][j] == 0 || r[i][j] == p.value
    // for a real piece colour, coloured exactly where the footprint is set
    ensures IsPieceValue(p.value) ==>
      forall i, j :: 0 <= i < Side && 0 <= j < Side ==> (r[i][j] != 0 <==> p.blocks[i][j] > 0)
  {
    seq(Side, i requires 0 <= i < Side =>
      seq(Side, j requires 0 <= j < Side => if p.blocks[i][j] > 0 then p.value else 0))
  }

  /** The listener calls one click on a preview board makes. */
  datatype Call =
    | RotateBlock(x: int, y: int)   // rotateBlockListener.rotateBlock(block)
    | SwapPieces                    // swapPiecesListener.swapPieces()

  class PieceBoard {
    /** The board's grid model, indexed [x, y]. */
    const grid: array2<int>
    var hasRotateListener: bool
    var hasSwapListener: bool

    ghost predicate Valid()
      reads this
    {
      grid.Length0 == Side && grid.Length1 == Side
    }

    /** The grid's contents as a value. */
    function Contents(): (r: seq<seq<int>>)
      reads this, grid
      requires Valid()
      ensures |r| == Side && forall i :: 0 <= i < Side ==> |r[i]| == Side
      ensures forall i, j :: 0 <= i < Side && 0 <= j < Side ==> r[i][j] == grid[i, j]
    {
      seq(Side, i requires 0 <= i < Side reads this, grid =>
        seq(Side, j requires 0 <= j < Side reads this, grid => grid[i, j]))
    }

    constructor ()
      ensures Valid() && fresh(grid)
      ensures !hasRotateListener && !hasSwapListener
      ensures forall i, j :: 0 <= i < Side && 0 <= j < Side ==> grid[i, j] == 0
    {
      grid := new int[Side, Side]((i, j) => 0);
      hasRotateListener, hasSwapListener := false, false;
    }

    method SetOnRotate()
      modifies this`hasRotateListener
      ensures hasRotateListener
    {
      hasRotateListener := true;
    }

    method SetOnSwap()
      modifies this`hasSwapListener
      ensures hasSwapListener
    {
      hasSwapListener := true;
    }

    /**
     * nextPiece: every one of the nine cells is rewritten, so the board
     * shows the piece and nothing of what it showed before.
     */
    method NextPiece(p: Piece)
      requires Valid() && IsFootprint(p.blocks)
      modifies grid
      ensures Valid()
      ensures Contents() == Preview(p)
    {
      for i := 0 to Side
        invariant forall x, y :: 0 <= x < i && 0 <= y < Side ==> grid[x, y] == Preview(p)[x][y]
      {
        for j := 0 to Side
          invariant forall x, y :: 0 <= x < i && 0 <= y < Side ==> grid[x, y] == Preview(p)[x][y]
          invariant forall y :: 0 <= y < j ==> grid[i, y] == Preview(p)[i][y]
        {
          if p.blocks[i][j] > 0 {
            grid[i, j] := p.value;
          } else {
            grid[i, j] := 0;
          }
        }
      }
      assert forall x :: 0 <= x < Side ==> Contents()[x] == Preview(p)[x];
    }

    /** The clicked block goes to the rotate listener first, then the swap listener, each only if set. */
    method BlockClicked(x: int, y: int) returns (calls: seq<Call>)
      ensures calls == (if hasRotateListener then [RotateBlock(x, y)] else [])
                       + (if hasSwapListener then [SwapPieces] else [])
      ensures hasRotateListener && hasSwapListener ==> calls == [RotateBlock(x, y), SwapPieces]
    {
      calls := [];
      if hasRotateListener {
        calls := calls + [RotateBlock(x, y)];
      }
      if hasSwapListener {
        calls := calls + [SwapPieces];
      }
    }
  }

  /** Showing the same piece twice leaves the board as showing it once. */
  method ShowTwice(board: PieceBoard, p: Piece)
    requires board.Valid() && IsFootprint(p.blocks)
    modifies board.grid
    ensures board.Contents() == Preview(p)
  {
    board.NextPiece(p);
    ghost var once := board.Contents();
    board.NextPiece(p);
    assert board.Contents() == once;
  }
}
