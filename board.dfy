/**
 * The playing grid as a value, and the clear-detection rules of
 * Game.afterPiece stated on it: which columns and rows are full, how many
 * lines that makes, and which distinct cells are cleared.
 */
module Board {

  /** A cell position: column x, row y (GameBlockCoordinate). */
  datatype Coord = Coord(x: int, y: int)

  /** `b[x][y]` is the colour code of column x, row y; 0 is empty, a positive value occupied. */
  type Board = seq<seq<int>>

  /** The game uses a square grid: |b| columns of |b| cells. */
  predicate Square(b: Board)
  {
    forall x :: 0 <= x < |b| ==> |b[x]| == |b|
  }

  predicate InBounds(b: Board, c: Coord)
  {
    0 <= c.x < |b| && 0 <= c.y < |b|
  }

  /** The board with every cell listed in `cells` set to `v` and every other cell kept. */
  function Fill(b: Board, cells: set<Coord>, v: int): (r: Board)
    requires Square(b)
    ensures Square(r) && |r| == |b|
  {
    seq(|b|, x requires 0 <= x < |b| =>
      seq(|b|, y requires 0 <= y < |b| => if Coord(x, y) in cells then v else b[x][y]))
  }

  /** Row y of the board, read across the columns. */
  function Row(b: Board, y: int): (r: seq<int>)
    requires Square(b) && 0 <= y < |b|
    ensures |r| == |b|
  {
    seq(|b|, x requires 0 <= x < |b| => b[x][y])
  }

  /** Number of occupied cells in a line: the `blocksPerCol` counter of afterPiece. */
  function Occupied(s: seq<int>): nat
  {
    if s == [] then 0 else Occupied(s[..|s| - 1]) + (if s[|s| - 1] > 0 then 1 else 0)
  }

  predicate IsFull(s: seq<int>)
  {
    forall i :: 0 <= i < |s| ==> s[i] > 0
  }

  /** Counting the occupied cells and comparing with the length decides "every cell is occupied". */
  lemma {:induction false} OccupiedFull(s: seq<int>)
    ensures Occupied(s) <= |s|
    ensures Occupied(s) == |s| <==> IsFull(s)
  {
    if s != [] {
      var init := s[..|s| - 1];
      OccupiedFull(init);
      assert forall i :: 0 <= i < |init| ==> init[i] == s[i];
    }
  }

  predicate ColumnFull(b: Board, x: int)
    requires 0 <= x < |b|
  {
    IsFull(b[x])
  }

  predicate RowFull(b: Board, y: int)
    requires Square(b) && 0 <= y < |b|
  {
    IsFull(Row(b, y))
  }

  /** The full columns among the first k. */
  function FullColumnsBelow(b: Board, k: int): set<int>
    requires 0 <= k <= |b|
  {
    set x | 0 <= x < k && ColumnFull(b, x)
  }

  /** The full rows among the first k. */
  function FullRowsBelow(b: Board, k: int): set<int>
    requires Square(b) && 0 <= k <= |b|
  {
    set y | 0 <= y < k && RowFull(b, y)
  }

  function FullColumns(b: Board): set<int>
  {
    FullColumnsBelow(b, |b|)
  }

  function FullRows(b: Board): set<int>
    requires Square(b)
  {
    FullRowsBelow(b, |b|)
  }

  /** Lines cleared: every full column and every full row counts once, so at most 2 * |b|. */
  function Lines(b: Board): (n: nat)
    requires Square(b)
    ensures n <= 2 * |b|
  {
    FullBelowBound(b, |b|);
    |FullColumns(b)| + |FullRows(b)|
  }

  /** The distinct cells to clear: those in a full column or in a full row, all on the board. */
  function ClearSet(b: Board): (cells: set<Coord>)
    requires Square(b)
    ensures forall c :: c in cells ==> InBounds(b, c)
  {
    set x, y | 0 <= x < |b| && 0 <= y < |b| && (x in FullColumns(b) || y in FullRows(b)) :: Coord(x, y)
  }

  lemma FullColumnsStep(b: Board, k: int)
    requires 0 <= k < |b|
    ensures FullColumnsBelow(b, k + 1) == FullColumnsBelow(b, k) + (if ColumnFull(b, k) then {k} else {})
    ensures |FullColumnsBelow(b, k + 1)| == |FullColumnsBelow(b, k)| + (if ColumnFull(b, k) then 1 else 0)
  {
    assert FullColumnsBelow(b, k + 1) == FullColumnsBelow(b, k) + (if ColumnFull(b, k) then {k} else {});
  }

  lemma FullRowsStep(b: Board, k: int)
    requires Square(b) && 0 <= k < |b|
    ensures FullRowsBelow(b, k + 1) == FullRowsBelow(b, k) + (if RowFull(b, k) then {k} else {})
    ensures |FullRowsBelow(b, k + 1)| == |FullRowsBelow(b, k)| + (if RowFull(b, k) then 1 else 0)
  {
    assert FullRowsBelow(b, k + 1) == FullRowsBelow(b, k) + (if RowFull(b, k) then {k} else {});
  }

  /** Among the first k columns (rows) at most k are full. */
  lemma {:induction false} FullBelowBound(b: Board, k: int)
    requires Square(b) && 0 <= k <= |b|
    ensures |FullColumnsBelow(b, k)| <= k && |FullRowsBelow(b, k)| <= k
  {
    if k > 0 {
      FullBelowBound(b, k - 1);
      FullColumnsStep(b, k - 1);
      FullRowsStep(b, k - 1);
    }
  }

  /** A line is cleared exactly when some cell is. */
  lemma {:induction false} NoLinesNoBlocks(b: Board)
    requires Square(b)
    ensures Lines(b) == 0 <==> ClearSet(b) == {}
  {
    if |FullColumns(b)| > 0 {
      var x :| x in FullColumns(b);
      assert Coord(x, 0) in ClearSet(b);
    } else if |FullRows(b)| > 0 {
      var y :| y in FullRows(b);
      assert Coord(0, y) in ClearSet(b);
    } else {
      assert FullColumns(b) == {} && FullRows(b) == {};
    }
  }

  /** The integers 0 .. n-1. */
  function Range(n: nat): (r: set<int>)
    ensures forall x :: x in r <==> 0 <= x < n
  {
    if n == 0 then {} else Range(n - 1) + {n - 1}
  }

  lemma {:induction false} RangeSize(n: nat)
    ensures |Range(n)| == n
  {
    if n > 0 {
      var below := Range(n - 1);
      RangeSize(n - 1);
      assert n - 1 !in below;
      assert Range(n) == below + {n - 1};
    } else {
      assert Range(0) == {};
    }
  }

  /** Some element of a set that is not empty. */
  lemma Pick(xs: set<int>) returns (x0: int)
    requires xs != {}
    ensures x0 in xs
  {
    if forall z :: z !in xs {
      assert false;
    }
    x0 :| x0 in xs;
  }

  /** Placing the integers of xs in one row gives as many distinct cells. */
  lemma {:induction false} RowImageSize(xs: set<int>, y: int)
    ensures |set x | x in xs :: Coord(x, y)| == |xs|
  {
    if xs != {} {
      var x0 := Pick(xs);
      RowImageSize(xs - {x0}, y);
      assert (set x | x in xs :: Coord(x, y)) == (set x | x in xs - {x0} :: Coord(x, y)) + {Coord(x0, y)};
    }
  }

  /** The cleared cells in the rows below k. */
  function ClearedBelow(b: Board, k: int): set<Coord>
    requires Square(b) && 0 <= k <= |b|
  {
    set x, y | 0 <= x < |b| && 0 <= y < k && (x in FullColumns(b) || y in FullRows(b)) :: Coord(x, y)
  }

  /** The cleared cells of row y. */
  function ClearedInRow(b: Board, y: int): set<Coord>
    requires Square(b) && 0 <= y < |b|
  {
    set x | 0 <= x < |b| && (x in FullColumns(b) || y in FullRows(b)) :: Coord(x, y)
  }

  /** A full row loses all its cells; any other row loses one cell per full column. */
  lemma ClearedInRowSize(b: Board, y: int)
    requires Square(b) && 0 <= y < |b|
    ensures |ClearedInRow(b, y)| == if y in FullRows(b) then |b| else |FullColumns(b)|
  {
    if y in FullRows(b) {
      RangeSize(|b|);
      RowImageSize(Range(|b|), y);
      assert ClearedInRow(b, y) == set x | x in Range(|b|) :: Coord(x, y);
    } else {
      RowImageSize(FullColumns(b), y);
      assert ClearedInRow(b, y) == set x | x in FullColumns(b) :: Coord(x, y);
    }
  }

  /** Going one row further adds that row's cleared cells, which are new. */
  lemma ClearedBelowStep(b: Board, k: int)
    requires Square(b) && 0 <= k < |b|
    ensures ClearedBelow(b, k + 1) == ClearedBelow(b, k) + ClearedInRow(b, k)
    ensures ClearedBelow(b, k) * ClearedInRow(b, k) == {}
    ensures |ClearedBelow(b, k + 1)| == |ClearedBelow(b, k)| + |ClearedInRow(b, k)|
  {
    var prev, part := ClearedBelow(b, k), ClearedInRow(b, k);
    assert ClearedBelow(b, k + 1) == prev + part;
    assert prev * part == {} by {
      forall c | c in prev ensures c !in part {
        assert c.y < k;
      }
    }
  }

  /** One more row in the closed form of ClearedBelowSize. */
  lemma CountStep(k: int, r: int, n: int, c: int, full: bool, before: int, part: int, r': int, total: int)
    requires before == r * n + (k - 1 - r) * c
    requires part == (if full then n else c) && r' == (if full then r + 1 else r)
    requires total == before + part
    ensures total == r' * n + (k - r') * c
  {
    if full {
      assert (r + 1) * n == r * n + n;
      assert (k - (r + 1)) * c == (k - 1 - r) * c;
    } else {
      assert (k - r) * c == (k - 1 - r) * c + c;
    }
  }

  /** Below row 0 there are no rows and no cells. */
  lemma BelowNothing(b: Board)
    requires Square(b)
    ensures ClearedBelow(b, 0) == {} && FullRowsBelow(b, 0) == {}
  {
    forall c | c in ClearedBelow(b, 0) ensures false {
    }
  }

  /** The sizes one more row adds, as plain numbers. */
  lemma SizeStep(b: Board, k: int)
    requires Square(b) && 0 <= k < |b|
    ensures |ClearedBelow(b, k + 1)| == |ClearedBelow(b, k)| + (if RowFull(b, k) then |b| else |FullColumns(b)|)
    ensures |FullRowsBelow(b, k + 1)| == |FullRowsBelow(b, k)| + (if RowFull(b, k) then 1 else 0)
  {
    ClearedBelowStep(b, k);
    ClearedInRowSize(b, k);
    FullRowsStep(b, k);
    assert RowFull(b, k) <==> k in FullRows(b);
  }

  lemma {:induction false} ClearedBelowSize(b: Board, k: int)
    requires Square(b) && 0 <= k <= |b|
    ensures |ClearedBelow(b, k)| == |FullRowsBelow(b, k)| * |b| + (k - |FullRowsBelow(b, k)|) * |FullColumns(b)|
  {
    if k > 0 {
      ClearedBelowSize(b, k - 1);
      SizeStep(b, k - 1);
      var full := RowFull(b, k - 1);
      CountStep(k, |FullRowsBelow(b, k - 1)|, |b|, |FullColumns(b)|, full, |ClearedBelow(b, k - 1)|,
        if full then |b| else |FullColumns(b)|, |FullRowsBelow(b, k)|, |ClearedBelow(b, k)|);
    } else {
      BelowNothing(b);
    }
  }

  /**
   * The number of cells a clear empties: each full row gives all its cells,
   * each other row one cell per full column. Equivalently, a cell in both a
   * full row and a full column is counted once.
   */
  lemma ClearSetSize(b: Board)
    requires Square(b)
    ensures |ClearSet(b)| == |FullRows(b)| * |b| + (|b| - |FullRows(b)|) * |FullColumns(b)|
    ensures |ClearSet(b)| == |b| * Lines(b) - |FullColumns(b)| * |FullRows(b)|
  {
    ClearedBelowSize(b, |b|);
    assert ClearedBelow(b, |b|) == ClearSet(b);
    var r, n, c := |FullRows(b)|, |b|, |FullColumns(b)|;
    assert (n - r) * c == n * c - r * c;
    assert n * (c + r) == n * c + n * r;
  }
}
