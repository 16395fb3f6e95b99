/**
 * The rules engine of Game.java: a square grid of colour codes, the current
 * and following piece, score, level, lives, multiplier and the countdown.
 *
 * The collaborators that are not part of this model enter as parameters:
 * Grid.canPlayPiece as `canPlay`, the cells Grid.playPiece writes as
 * `footprint`, GamePiece.rotate as `rotate`, and each Math.random draw of
 * spawnPiece as a roll in [0, 15). Listener calls are recorded, in order, in
 * `events`; the timer is the pair `timerArmed` / `armedDelay`, and its expiry
 * is the method GameLoop.
 */
module Game {
  import opened Wrappers
  import opened Pieces
  import opened Board
  import opened Scoring

  /** A call of one of the engine's listeners. */
  datatype Event =
    | CurrentPieceShown(piece: Piece)          // nextPieceListener.nextPiece
    | FollowingPieceShown(piece: Piece)        // followingPieceListener.nextPiece
    | LinesCleared(cells: set<Coord>)          // lineClearedListener.clearLines
    | GameLoopStarted(delay: int, lives: int)  // gameLoopListener.startGameLoop

  /** The array `g` holds the board value `b`: `g[x, y] == b[x][y]`. */
  ghost predicate Holds(g: array2<int>, b: Board)
    reads g
  {
    Square(b) && g.Length0 == |b| && g.Length1 == |b| &&
    forall x, y :: 0 <= x < |b| && 0 <= y < |b| ==> g[x, y] == b[x][y]
  }

  /** The current contents of a square grid array, as a board value. */
  function Snapshot(g: array2<int>): (b: Board)
    reads g
    requires g.Length0 == g.Length1
    ensures Holds(g, b)
  {
    seq(g.Length0, x requires 0 <= x < g.Length0 reads g =>
      seq(g.Length1, y requires 0 <= y < g.Length1 reads g => g[x, y]))
  }

  lemma HoldsSnapshot(g: array2<int>, b: Board)
    requires Holds(g, b)
    ensures Snapshot(g) == b
  {
    var s := Snapshot(g);
    forall x | 0 <= x < |b| ensures s[x] == b[x] {
      assert |s[x]| == |b[x]|;
    }
  }

  /** Occupied cells in column x (the first counting loop of afterPiece). */
  method CountColumn(g: array2<int>, ghost b: Board, x: int) returns (count: nat)
    requires Holds(g, b) && 0 <= x < |b|
    ensures count == Occupied(b[x])
  {
    count := 0;
    for y := 0 to g.Length1
      invariant count == Occupied(b[x][..y])
    {
      assert b[x][..y + 1][..y] == b[x][..y];
      if g[x, y] > 0 {
        count := count + 1;
      }
    }
    assert b[x][..g.Length1] == b[x];
  }

  /** Occupied cells in row y (the second counting loop of afterPiece). */
  method CountRow(g: array2<int>, ghost b: Board, y: int) returns (count: nat)
    requires Holds(g, b) && 0 <= y < |b|
    ensures count == Occupied(Row(b, y))
  {
    count := 0;
    for x := 0 to g.Length0
      invariant count == Occupied(Row(b, y)[..x])
    {
      assert Row(b, y)[..x + 1][..x] == Row(b, y)[..x];
      if g[x, y] > 0 {
        count := count + 1;
      }
    }
    assert Row(b, y)[..g.Length0] == Row(b, y);
  }

  /**
   * The column pass of afterPiece: each full column is counted as a line and
   * every one of its cells is marked once in `clearedLines`.
   */
  method MarkFullColumns(g: array2<int>, ghost b: Board, clearedLines: array2<int>) returns (lines: nat)
    requires Holds(g, b) && clearedLines != g
    requires clearedLines.Length0 == |b| && clearedLines.Length1 == |b|
    modifies clearedLines
    ensures lines == |FullColumns(b)|
    ensures forall x, y :: 0 <= x < |b| && 0 <= y < |b| ==>
      clearedLines[x, y] == old(clearedLines[x, y]) + (if x in FullColumns(b) then 1 else 0)
  {
    var n := g.Length0;
    lines := 0;
    for i := 0 to n
      invariant lines == |FullColumnsBelow(b, i)|
      invariant forall x, y :: 0 <= x < n && 0 <= y < n ==>
        clearedLines[x, y] == old(clearedLines[x, y]) + (if x < i && ColumnFull(b, x) then 1 else 0)
    {
      var blocksPerCol := CountColumn(g, b, i);
      OccupiedFull(b[i]);
      FullColumnsStep(b, i);
      if blocksPerCol == n {
        for j := 0 to n
          invariant forall x, y :: 0 <= x < n && 0 <= y < n ==>
            clearedLines[x, y] == old(clearedLines[x, y]) + (if x < i && ColumnFull(b, x) then 1 else 0)
                                  + (if x == i && y < j then 1 else 0)
        {
          clearedLines[i, j] := clearedLines[i, j] + 1;
        }
        lines := lines + 1;
      }
    }
  }

  /**
   * The row pass of afterPiece: each full row is one more line and every one
   * of its cells is marked once more in `clearedLines`.
   */
  method MarkFullRows(g: array2<int>, ghost b: Board, clearedLines: array2<int>, linesBefore: nat) returns (lines: nat)
    requires Holds(g, b) && clearedLines != g
    requires clearedLines.Length0 == |b| && clearedLines.Length1 == |b|
    modifies clearedLines
    ensures lines == linesBefore + |FullRows(b)|
    ensures forall x, y :: 0 <= x < |b| && 0 <= y < |b| ==>
      clearedLines[x, y] == old(clearedLines[x, y]) + (if y in FullRows(b) then 1 else 0)
  {
    var n := g.Length0;
    lines := linesBefore;
    for j := 0 to n
      invariant lines == linesBefore + |FullRowsBelow(b, j)|
      invariant forall x, y :: 0 <= x < n && 0 <= y < n ==>
        clearedLines[x, y] == old(clearedLines[x, y]) + (if y < j && RowFull(b, y) then 1 else 0)
    {
      var blocksPerRow := CountRow(g, b, j);
      OccupiedFull(Row(b, j));
      FullRowsStep(b, j);
      if blocksPerRow == n {
        for i := 0 to n
          invariant forall x, y :: 0 <= x < n && 0 <= y < n ==>
            clearedLines[x, y] == old(clearedLines[x, y]) + (if y < j && RowFull(b, y) then 1 else 0)
                                  + (if y == j && x < i then 1 else 0)
        {
          clearedLines[i, j] := clearedLines[i, j] + 1;
        }
        lines := lines + 1;
      }
    }
  }

  /** The marked cells of row y of the scratch grid (one pass of the inner collecting loop). */
  method CollectRow(clearedLines: array2<int>, ghost b: Board, y: int) returns (row: set<Coord>, count: nat)
    requires Square(b) && clearedLines.Length0 == |b| && clearedLines.Length1 == |b| && 0 <= y < |b|
    requires forall x, y :: 0 <= x < |b| && 0 <= y < |b| ==>
      (clearedLines[x, y] > 0 <==> x in FullColumns(b) || y in FullRows(b))
    ensures row == (set c | c in ClearSet(b) && c.y == y) && count == |row|
  {
    var n := clearedLines.Length0;
    row, count := {}, 0;
    for j := 0 to n
      invariant row == set c | c in ClearSet(b) && c.y == y && c.x < j
      invariant count == |row|
    {
      if clearedLines[j, y] > 0 {
        assert Coord(j, y) in ClearSet(b);
        row := row + {Coord(j, y)};
        count := count + 1;
      } else {
        assert Coord(j, y) !in ClearSet(b);
      }
    }
  }

  /**
   * The collecting pass of afterPiece: every marked cell becomes one
   * coordinate, so `blocks` counts distinct cells.
   */
  method CollectMarked(clearedLines: array2<int>, ghost b: Board) returns (coords: set<Coord>, blocks: nat)
    requires Square(b) && clearedLines.Length0 == |b| && clearedLines.Length1 == |b|
    requires forall x, y :: 0 <= x < |b| && 0 <= y < |b| ==>
      (clearedLines[x, y] > 0 <==> x in FullColumns(b) || y in FullRows(b))
    ensures coords == ClearSet(b) && blocks == |ClearSet(b)|
  {
    var n := clearedLines.Length0;
    coords, blocks := {}, 0;
    for i := 0 to n
      invariant coords == set c | c in ClearSet(b) && c.y < i
      invariant blocks == |coords|
    {
      var row, count := CollectRow(clearedLines, b, i);
      assert coords * row == {};
      assert (set c | c in ClearSet(b) && c.y < i + 1) == coords + row;
      coords, blocks := coords + row, blocks + count;
    }
  }

  /**
   * The three passes of afterPiece over a scratch grid: the number of full
   * columns and rows, the distinct cells they cover, and how many those are.
   */
  method FindClears(g: array2<int>, ghost b: Board) returns (lines: nat, coords: set<Coord>, blocks: nat)
    requires Holds(g, b)
    ensures lines == Lines(b)
    ensures coords == ClearSet(b) && blocks == |ClearSet(b)|
  {
    var n := g.Length0;
    var clearedLines := new int[n, n]((x, y) => 0);
    lines := MarkFullColumns(g, b, clearedLines);
    lines := MarkFullRows(g, b, clearedLines, lines);
    coords, blocks := CollectMarked(clearedLines, b);
  }

  class Game {
    /** Grid size; the model is restricted to square boards, as the game uses (5 x 5). */
    const cols: nat
    const rows: nat
    /** The piece catalog of GamePiece.createPiece. */
    const shapes: seq<Footprint>
    /** The grid model, indexed [x, y]. */
    const grid: array2<int>

    var gamePiece: Option<Piece>
    var followingPiece: Option<Piece>
    var score: int
    var level: int
    var lives: int
    var multiplier: int
    var timerDelay: int

    /** Which listeners have been attached. */
    var hasNextPieceListener: bool
    var hasFollowingPieceListener: bool
    var hasLineClearedListener: bool
    var hasGameLoopListener: bool
    /** Every listener call so far, in order. */
    var events: seq<Event>

    /** Whether a countdown is scheduled, and for how long. */
    var timerArmed: bool
    var armedDelay: int
    /** How many pieces have been drawn at random. */
    ghost var draws: nat

    function Stats(): Stats
      reads this
    {
      Scoring.Stats(score, multiplier, level, timerDelay)
    }

    function Cells(): Board
      reads grid
      requires grid.Length0 == grid.Length1
    {
      Snapshot(grid)
    }

    ghost predicate Valid()
      reads this, grid
    {
      && cols == rows && grid.Length0 == cols && grid.Length1 == rows
      && IsCatalog(shapes)
      && (gamePiece.Some? ==> IsPieceValue(gamePiece.value.value))
      && (followingPiece.Some? ==> IsPieceValue(followingPiece.value.value))
      && Consistent(Stats())
      && lives <= 3
      && forall x, y :: 0 <= x < cols && 0 <= y < rows ==> 0 <= grid[x, y] <= PieceCount
    }

    /** The listener calls that announce a new current and following piece. */
    function ShownEvents(current: Piece, following: Piece): seq<Event>
      reads this
    {
      (if hasNextPieceListener then [CurrentPieceShown(current)] else []) +
      (if hasFollowingPieceListener then [FollowingPieceShown(following)] else [])
    }

    constructor (cols: nat, rows: nat, shapes: seq<Footprint>)
      requires cols == rows && IsCatalog(shapes)
      ensures Valid() && fresh(grid)
      ensures this.cols == cols && this.rows == rows && this.shapes == shapes
      ensures forall x, y :: 0 <= x < cols && 0 <= y < rows ==> grid[x, y] == 0
      ensures gamePiece == None && followingPiece == None
      ensures Stats() == Initial && lives == 3
      ensures !hasNextPieceListener && !hasFollowingPieceListener
      ensures !hasLineClearedListener && !hasGameLoopListener
      ensures events == [] && !timerArmed && draws == 0
    {
      this.cols := cols;
      this.rows := rows;
      this.shapes := shapes;
      grid := new int[cols, rows]((x, y) => 0);
      gamePiece, followingPiece := None, None;
      score, level, lives, multiplier := 0, 0, 3, 1;
      timerDelay := InitialDelay;
      hasNextPieceListener, hasFollowingPieceListener := false, false;
      hasLineClearedListener, hasGameLoopListener := false, false;
      events := [];
      timerArmed, armedDelay := false, 0;
      draws := 0;
    }

    method SetNextPieceListener()
      modifies this`hasNextPieceListener
      ensures hasNextPieceListener
    {
      hasNextPieceListener := true;
    }

    method SetFollowingPieceListener()
      modifies this`hasFollowingPieceListener
      ensures hasFollowingPieceListener
    {
      hasFollowingPieceListener := true;
    }

    method SetLineClearedListener()
      modifies this`hasLineClearedListener
      ensures hasLineClearedListener
    {
      hasLineClearedListener := true;
    }

    method SetGameLoopListener()
      modifies this`hasGameLoopListener
      ensures hasGameLoopListener
    {
      hasGameLoopListener := true;
    }

    /** buildTimer: tell the game-loop listener, then (re)arm the countdown with the current delay. */
    method BuildTimer()
      requires hasGameLoopListener
      modifies this`events, this`timerArmed, this`armedDelay
      ensures events == old(events) + [GameLoopStarted(timerDelay, lives)]
      ensures timerArmed && armedDelay == timerDelay
    {
      events := events + [GameLoopStarted(timerDelay, lives)];
      timerArmed, armedDelay := true, timerDelay;
    }

    /** start / initialiseGame: arm the first countdown. */
    method Start()
      requires hasGameLoopListener
      modifies this`events, this`timerArmed, this`armedDelay
      ensures events == old(events) + [GameLoopStarted(timerDelay, lives)]
      ensures timerArmed && armedDelay == timerDelay
    {
      BuildTimer();
    }

    /** spawnPiece: the catalog piece picked by one random draw. */
    method SpawnPiece(roll: int) returns (p: Piece)
      requires IsCatalog(shapes) && 0 <= roll < PieceCount
      modifies this`draws
      ensures p == CreatePiece(shapes, roll) && IsPieceValue(p.value)
      ensures draws == old(draws) + 1
    {
      p := CreatePiece(shapes, roll);
      draws := draws + 1;
    }

    /**
     * nextPiece: the following piece becomes current (a fresh one is drawn
     * when there is none yet) and exactly one fresh following piece is drawn.
     */
    method NextPiece(currentRoll: int, followingRoll: int)
      requires Valid() && 0 <= currentRoll < PieceCount && 0 <= followingRoll < PieceCount
      modifies this`gamePiece, this`followingPiece, this`events, this`draws
      ensures Valid()
      ensures gamePiece == Some(if old(followingPiece).Some? then old(followingPiece).value
                                else CreatePiece(shapes, currentRoll))
      ensures followingPiece == Some(CreatePiece(shapes, followingRoll))
      ensures draws == old(draws) + (if old(followingPiece).Some? then 1 else 2)
      ensures events == old(events) + ShownEvents(gamePiece.value, followingPiece.value)
    {
      if followingPiece.Some? {
        gamePiece := followingPiece;
      } else {
        var p := SpawnPiece(currentRoll);
        gamePiece := Some(p);
      }
      var f := SpawnPiece(followingRoll);
      followingPiece := Some(f);
      if hasNextPieceListener {
        events := events + [CurrentPieceShown(gamePiece.value)];
      }
      if hasFollowingPieceListener {
        events := events + [FollowingPieceShown(f)];
      }
    }

    /** rotateCurrentPiece: the current piece's footprint turned by the unseen rotation rule. */
    method RotateCurrentPiece(rotate: (Footprint, int) -> Footprint, amountOfRotations: int)
      requires Valid() && gamePiece.Some? && hasNextPieceListener
      modifies this`gamePiece, this`events
      ensures Valid()
      ensures gamePiece == Some(Piece(old(gamePiece).value.value, rotate(old(gamePiece).value.blocks, amountOfRotations)))
      ensures events == old(events) + [CurrentPieceShown(gamePiece.value)]
    {
      var p := gamePiece.value;
      gamePiece := Some(p.(blocks := rotate(p.blocks, amountOfRotations)));
      events := events + [CurrentPieceShown(gamePiece.value)];
    }

    /**
     * swapCurrentPiece: the following piece becomes current and the new
     * following piece is re-created from the old current piece's value, so
     * its rotation is dropped; nothing is drawn at random.
     */
    method SwapCurrentPiece()
      requires Valid() && gamePiece.Some?
      requires hasNextPieceListener ==> followingPiece.Some?
      modifies this`gamePiece, this`followingPiece, this`events
      ensures Valid()
      ensures gamePiece == old(followingPiece)
      ensures followingPiece == Some(CreatePiece(shapes, old(gamePiece).value.value - 1))
      ensures events == old(events)
        + (if hasNextPieceListener then [CurrentPieceShown(old(followingPiece).value)] else [])
        + (if hasFollowingPieceListener then [FollowingPieceShown(followingPiece.value)] else [])
    {
      var placeholder := CreatePiece(shapes, gamePiece.value.value - 1);
      gamePiece := followingPiece;
      followingPiece := Some(placeholder);
      if hasNextPieceListener {
        events := events + [CurrentPieceShown(gamePiece.value)];
      }
      if hasFollowingPieceListener {
        events := events + [FollowingPieceShown(placeholder)];
      }
    }

    /** Grid.playPiece, abstractly: the piece's colour goes into the cells of its footprint. */
    method PlayPiece(p: Piece, cells: set<Coord>)
      requires Valid() && IsPieceValue(p.value)
      modifies grid
      ensures Valid()
      ensures Cells() == Fill(old(Cells()), cells, p.value)
    {
      ghost var b := Fill(Cells(), cells, p.value);
      forall x, y | 0 <= x < cols && 0 <= y < rows && Coord(x, y) in cells {
        grid[x, y] := p.value;
      }
      HoldsSnapshot(grid, b);
    }

    /** What the line-cleared listener does with the cells it is given: set each to 0. */
    method ClearCells(cells: set<Coord>)
      requires Valid()
      modifies grid
      ensures Valid()
      ensures Cells() == Fill(old(Cells()), cells, 0)
    {
      ghost var b := Fill(Cells(), cells, 0);
      forall x, y | 0 <= x < cols && 0 <= y < rows && Coord(x, y) in cells {
        grid[x, y] := 0;
      }
      HoldsSnapshot(grid, b);
    }

    /** score: add the points of a placement with the current multiplier. */
    method Score(lines: nat, blocks: nat)
      requires multiplier >= 1
      modifies this`score
      ensures score == old(score) + ScoreGain(lines, blocks, multiplier)
    {
      score := score + ScoreGain(lines, blocks, multiplier);
    }

    method ChangeMultiplier(isLinesCleared: bool)
      modifies this`multiplier
      ensures multiplier == NextMultiplier(old(multiplier), isLinesCleared)
    {
      if isLinesCleared {
        multiplier := multiplier + 1;
      } else {
        multiplier := 1;
      }
    }

    /** changeLevel: recompute the level, and the countdown only if the level changed. */
    method ChangeLevel()
      requires score >= 0
      modifies this`level, this`timerDelay
      ensures old(level) == LevelFor(score) ==> level == old(level) && timerDelay == old(timerDelay)
      ensures old(level) != LevelFor(score) ==> level == LevelFor(score) && timerDelay == DelayFor(level)
    {
      if level == score / LevelPoints {
        return;
      }
      level := score / LevelPoints;
      timerDelay := DelayFor(level);
    }

    /** The scoring tail of afterPiece: score, then the multiplier, then the level. */
    method UpdateStats(lines: nat, blocks: nat)
      requires Consistent(Stats())
      modifies this`score, this`multiplier, this`level, this`timerDelay
      ensures Stats() == Scored(old(Stats()), lines, blocks)
      ensures Consistent(Stats())
    {
      ghost var before := Stats();
      Score(lines, blocks);
      ChangeMultiplier(lines > 0);
      ChangeLevel();
      ScoredLaws(before, lines, blocks);
    }

    /**
     * afterPiece: find the full columns and rows, hand the distinct cells to
     * the line-cleared listener (which empties them), then score, update the
     * multiplier and the level.
     */
    method AfterPiece()
      requires Valid() && hasLineClearedListener
      modifies this`score, this`multiplier, this`level, this`timerDelay, this`events, grid
      ensures Valid()
      ensures Cells() == Fill(old(Cells()), ClearSet(old(Cells())), 0)
      ensures Stats() == Scored(old(Stats()), Lines(old(Cells())), |ClearSet(old(Cells()))|)
      ensures events == old(events) + [LinesCleared(ClearSet(old(Cells())))]
    {
      ghost var b := Cells();
      var lines, blockCoordinates, blocks := FindClears(grid, b);
      // lineClearedListener.clearLines: the listener empties every listed cell.
      events := events + [LinesCleared(blockCoordinates)];
      ClearCells(blockCoordinates);
      UpdateStats(lines, blocks);
    }

    /** The end of an accepted placement: clear and score the board, then re-arm the countdown. */
    method ClearAndRearm()
      requires Valid() && hasLineClearedListener && hasGameLoopListener
      modifies this`score, this`multiplier, this`level, this`timerDelay, this`events,
               this`timerArmed, this`armedDelay, grid
      ensures Valid()
      ensures Cells() == Fill(old(Cells()), ClearSet(old(Cells())), 0)
      ensures Stats() == Scored(old(Stats()), Lines(old(Cells())), |ClearSet(old(Cells()))|)
      ensures events == old(events) + [LinesCleared(ClearSet(old(Cells()))), GameLoopStarted(timerDelay, lives)]
      ensures timerArmed && armedDelay == timerDelay
    {
      AfterPiece();
      BuildTimer();
    }

    /**
     * The accepted branch of blockClicked: place the piece, advance the
     * pieces, clear and score, and re-arm the countdown, in that order.
     */
    method Place(x: int, y: int, footprint: (Piece, int, int) -> set<Coord>, currentRoll: int, followingRoll: int)
      requires Valid() && gamePiece.Some?
      requires hasLineClearedListener && hasGameLoopListener
      requires 0 <= currentRoll < PieceCount && 0 <= followingRoll < PieceCount
      modifies this`gamePiece, this`followingPiece, this`score, this`multiplier, this`level,
               this`timerDelay, this`events, this`draws, this`timerArmed, this`armedDelay, grid
      ensures Valid()
      ensures lives == old(lives)
      ensures gamePiece == Some(if old(followingPiece).Some? then old(followingPiece).value
                                else CreatePiece(shapes, currentRoll))
      ensures followingPiece == Some(CreatePiece(shapes, followingRoll))
      ensures draws == old(draws) + (if old(followingPiece).Some? then 1 else 2)
      ensures var p := old(gamePiece).value;
        var placed := Fill(old(Cells()), footprint(p, x, y), p.value);
        && Cells() == Fill(placed, ClearSet(placed), 0)
        && Stats() == Scored(old(Stats()), Lines(placed), |ClearSet(placed)|)
        && events == old(events) + ShownEvents(gamePiece.value, followingPiece.value)
                     + [LinesCleared(ClearSet(placed)), GameLoopStarted(timerDelay, lives)]
      ensures timerArmed && armedDelay == timerDelay
    {
      var p := gamePiece.value;
      ghost var stats0, events0 := Stats(), events;
      PlayPiece(p, footprint(p, x, y));
      ghost var placed := Cells();
      NextPiece(currentRoll, followingRoll);
      assert Cells() == placed && Stats() == stats0;
      ClearAndRearm();
    }

    /**
     * blockClicked: a rejected placement changes nothing; an accepted one
     * places the piece, advances the pieces, clears and scores, and re-arms
     * the countdown, in that order.
     */
    method BlockClicked(x: int, y: int, canPlay: (Board, Piece, int, int) -> bool,
                        footprint: (Piece, int, int) -> set<Coord>, currentRoll: int, followingRoll: int)
      requires Valid() && gamePiece.Some?
      requires hasLineClearedListener && hasGameLoopListener
      requires 0 <= currentRoll < PieceCount && 0 <= followingRoll < PieceCount
      modifies this`gamePiece, this`followingPiece, this`score, this`multiplier, this`level,
               this`timerDelay, this`events, this`draws, this`timerArmed, this`armedDelay, grid
      ensures Valid()
      ensures !canPlay(old(Cells()), old(gamePiece).value, x, y) ==> unchanged(this) && unchanged(grid)
      ensures canPlay(old(Cells()), old(gamePiece).value, x, y) ==>
        var p := old(gamePiece).value;
        var placed := Fill(old(Cells()), footprint(p, x, y), p.value);
        && Cells() == Fill(placed, ClearSet(placed), 0)
        && Stats() == Scored(old(Stats()), Lines(placed), |ClearSet(placed)|)
        && score == old(score) + Lines(placed) * |ClearSet(placed)| * 10 * old(multiplier)
        && multiplier == (if Lines(placed) > 0 then old(multiplier) + 1 else 1)
        && level >= old(level)
        && lives == old(lives)
        && gamePiece == Some(if old(followingPiece).Some? then old(followingPiece).value
                             else CreatePiece(shapes, currentRoll))
        && followingPiece == Some(CreatePiece(shapes, followingRoll))
        && draws == old(draws) + (if old(followingPiece).Some? then 1 else 2)
        && events == old(events) + ShownEvents(gamePiece.value, followingPiece.value)
                     + [LinesCleared(ClearSet(placed)), GameLoopStarted(timerDelay, lives)]
        && timerArmed && armedDelay == timerDelay
    {
      if !canPlay(Cells(), gamePiece.value, x, y) {
        return;
      }
      ghost var before := Stats();
      ghost var placed := Fill(Cells(), footprint(gamePiece.value, x, y), gamePiece.value.value);
      Place(x, y, footprint, currentRoll, followingRoll);
      ScoredLaws(before, Lines(placed), |ClearSet(placed)|);
    }

    /**
     * gameLoop, run when the countdown expires: one life lost, the pieces
     * advance, the multiplier resets; the countdown is re-armed unless no
     * lives are left, in which case the listener is only told lives = 0.
     */
    method GameLoop(currentRoll: int, followingRoll: int)
      requires Valid() && timerArmed && hasGameLoopListener
      requires 0 <= currentRoll < PieceCount && 0 <= followingRoll < PieceCount
      modifies this`lives, this`gamePiece, this`followingPiece, this`multiplier, this`events,
               this`draws, this`timerArmed, this`armedDelay
      ensures Valid()
      ensures lives == old(lives) - 1 && multiplier == 1
      ensures score == old(score) && level == old(level) && timerDelay == old(timerDelay)
      ensures gamePiece == Some(if old(followingPiece).Some? then old(followingPiece).value
                                else CreatePiece(shapes, currentRoll))
      ensures followingPiece == Some(CreatePiece(shapes, followingRoll))
      ensures draws == old(draws) + (if old(followingPiece).Some? then 1 else 2)
      ensures events == old(events) + ShownEvents(gamePiece.value, followingPiece.value)
                        + [GameLoopStarted(timerDelay, lives)]
      ensures timerArmed == (lives != 0)
      ensures timerArmed ==> armedDelay == timerDelay
    {
      timerArmed := false;
      lives := lives - 1;
      NextPiece(currentRoll, followingRoll);
      multiplier := 1;
      RestartOrEnd();
    }

    /**
     * The end of gameLoop, once the expired countdown is gone: arm a new one
     * while lives remain, otherwise only tell the listener.
     */
    method RestartOrEnd()
      requires hasGameLoopListener && !timerArmed
      modifies this`events, this`timerArmed, this`armedDelay
      ensures events == old(events) + [GameLoopStarted(timerDelay, lives)]
      ensures timerArmed == (lives != 0)
      ensures timerArmed ==> armedDelay == timerDelay
    {
      if lives != 0 {
        BuildTimer();
      } else {
        events := events + [GameLoopStarted(timerDelay, lives)];
      }
    }
  }

  /**
   * In a fresh game on the 5 x 5 board, a placement that fills row 2 and no
   * column clears one line of five cells, scores 50 and raises the
   * multiplier to 2.
   */
  lemma SingleRowClear(b: Board)
    requires Square(b) && |b| == 5
    requires FullColumns(b) == {} && FullRows(b) == {2}
    ensures Lines(b) == 1 && |ClearSet(b)| == 5
    ensures Scored(Initial, Lines(b), |ClearSet(b)|) == Scoring.Stats(50, 2, 0, InitialDelay)
  {
    ClearSetSize(b);
  }
}
