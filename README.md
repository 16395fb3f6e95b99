# TetrECS rules engine in Dafny

This project models the rules engine of TetrECS, a grid-placement puzzle game written in Java. It covers three parts:

- **`Game`**: the imperative state machine. It holds a square grid of colour codes, the current and following pieces, and the score, level, lives, multiplier and countdown delay. Its operations are placement, clear detection and scoring, piece advance and swap, rotation, and the forced life loss when the countdown expires.
- **`PieceBoard`**: the 3×3 preview board. Showing a piece rewrites all nine cells, and a click is forwarded to up to two listeners.
- **`ScoresScene`**: the score table. It reads `name-score` lines from the text of a file into a list kept in descending score order, writes the list back, appends the final score on ENTER, and folds the file into a high score.

The modules are arranged as follows:

| file | module | holds |
|---|---|---|
| `wrappers.dfy` | `Wrappers` | `Option` |
| `pieces.dfy` | `Pieces` | 3×3 footprints, the 15-piece catalog, `createPiece` |
| `board.dfy` | `Board` | the grid as a value: full columns and rows, lines, the set of cells to clear and its size |
| `scoring.dfy` | `Scoring` | the score, multiplier, level and delay arithmetic, and one scoring event as a function on `Stats` |
| `game.dfy` | `Game` | the `Game` class over an `array2<int>` grid, and the loops of `afterPiece` as methods |
| `pieceboard.dfy` | `PieceBoard` | the `PieceBoard` class over a 3×3 `array2<int>` |
| `scorelines.dfy` | `ScoreLines` | Java's `split("-")`, `Integer.parseInt`, `Integer.toString`, the line format, and how `Scanner.nextLine` cuts a text into lines and `BufferedWriter` joins lines into one |
| `scores.dfy` | `Scores` | ordered insertion, reading, writing and the high score, and the `ScoresScene` class |

Every state-changing method is proved against a function of the old state:
- the grid's contents are the board value `Cells()`, and a placement ends with `Fill(placed, ClearSet(placed), 0)`;
- the scoring fields are `Stats()`, and one scoring event makes them `Scored(old(Stats()), lines, blocks)`;
- the table after reading is `Load(old, ReadLines(ScannerLines(file)))`, and the file after writing is `FileText(WriteLines(table))`.

The properties are then proved about those functions.

Listener calls are recorded in order in the field `events`, so the order of a placement (advance, then clear, then re-arm) is part of the contracts. Whether each listener is attached is a boolean field. The Java code calls the line-cleared and game-loop listeners without a null check, and `rotateCurrentPiece` calls the next-piece listener without one (`Game.java:234`). So the methods that call them require those listeners to be set; `RotateCurrentPiece` requires the next-piece listener.

Some inputs come from outside the model:
- The random index of `spawnPiece` is a `roll` parameter in `[0, 15)`, and a ghost counter `draws` records how many pieces were drawn.
- `Grid.canPlayPiece`, `Grid.playPiece` and `GamePiece.rotate` are not part of this model. `BlockClicked` and `RotateCurrentPiece` take them as function parameters:
  - `canPlay` decides a placement;
  - `footprint` gives the cells a placement writes;
  - `rotate` gives the turned footprint.
- The piece catalog is a constructor parameter of 15 footprints.

### Behaviour the code has that one might not expect (the model follows the code)

- **Order within a placement.** `blockClicked` advances the pieces before it runs clear detection (`Game.java:110-111`), so clear detection does not come first. The `events` contract of `BlockClicked` states the code's order.
- **No terminal state.** After the last life is lost, `gameLoop` only tells the listener `lives = 0`. Nothing in `Game` rejects later placements, so `BlockClicked` does not require `lives > 0`.
- **Swap re-creates the piece.** `swapCurrentPiece` does not exchange the two pieces. The new following piece is `createPiece(value - 1)` of the old current piece, so its rotation is reset. The index is always within the catalog, because piece colours are `1..15` (`Pieces.CreatePiece` and `Game.Game.Valid`). The method also requires a following piece when the current-piece listener is set, because the Java code would pass `null` to it.
- **The delay is recomputed only on a level change.** `changeLevel` returns early when the level is unchanged. Even so, `delay == max(12000 - 500*level, 2500)` holds after every scoring step, because it already held before; `Scoring.Consistent` and `Scoring.ScoredLaws` prove this.
- **The line-cleared listener is always called**, even with an empty set of cells (`Game.java:186`).

The file format also has three limits, each proved by a concrete lemma:
- a name containing `-` does not read back (`ScoreLines.DashedNameUnreadable`);
- a negative score does not read back (`ScoreLines.NegativeScoreUnreadable`);
- a name containing a line terminator (`\n`, `\r`, U+0085, U+2028 or U+2029) is written as one line but read as two or more lines. For a dash-free name the file then fails to load (`ScoreLines.SeparatorNameSplits`, `Scores.SeparatorNameBreaksTable`). A name that also holds `-` can add made-up entries to the table, and the file still loads (`Scores.DashedSeparatorNameForges`).

So the round trip `Scores.WriteLoadRoundTrip` holds for sorted tables of names with no dash and no line terminator, and scores in `[0, 2^31 − 1]`. ENTER appends the new entry without sorting, so the table it writes need not be sorted. With the same limits on names and scores, `Scores.WriteLoadUnsorted` and `Scores.EnterReload` prove that the file loads in full, sorted, with the same entries as a multiset.

## Model

| member | source | states |
|---|---|---|
| Pieces.CreatePiece | src/main/java/uk/ac/soton/comp1206/game/Game.java:243 | the piece made from catalog index `i` has colour `i + 1` (a valid colour, never 0) and catalog shape `i`, so `value - 1` recovers the index |
| Board.OccupiedFull | src/main/java/uk/ac/soton/comp1206/game/Game.java:150-155 | counting the occupied cells of a line gives at most its length, and exactly its length iff every cell is occupied |
| Board.NoLinesNoBlocks | src/main/java/uk/ac/soton/comp1206/game/Game.java:144-184 | no full column or row iff the set of cells to clear is empty |
| Board.Lines | src/main/java/uk/ac/soton/comp1206/game/Game.java:144-184 | the number of cleared lines, full columns plus full rows, is at most `2·n` on an `n×n` board |
| Board.ClearSet | src/main/java/uk/ac/soton/comp1206/game/Game.java:144-184 | every cell to clear lies on the board |
| Board.ClearSetSize | src/main/java/uk/ac/soton/comp1206/game/Game.java:177-184 | the number of distinct cleared cells is `rows·n + (n − rows)·cols`, i.e. `n·lines − cols·rows`: a cell in both a full row and a full column counts once |
| Game.CountColumn | src/main/java/uk/ac/soton/comp1206/game/Game.java:151-154 | the counting loop returns the number of occupied cells of column x |
| Game.CountRow | src/main/java/uk/ac/soton/comp1206/game/Game.java:165-168 | the counting loop returns the number of occupied cells of row y |
| Game.MarkFullColumns | src/main/java/uk/ac/soton/comp1206/game/Game.java:149-161 | the column pass counts exactly the full columns, and adds one mark to every cell of each full column and nothing elsewhere |
| Game.MarkFullRows | src/main/java/uk/ac/soton/comp1206/game/Game.java:163-175 | the row pass adds the number of full rows to `lines`, and adds one mark to every cell of each full row and nothing elsewhere |
| Game.CollectRow | src/main/java/uk/ac/soton/comp1206/game/Game.java:180-184 | one inner collecting loop yields exactly the cleared cells of that row, and counts them |
| Game.CollectMarked | src/main/java/uk/ac/soton/comp1206/game/Game.java:177-184 | the collected coordinates are exactly the cells in a full column or full row, and `blocks` is their number |
| Game.FindClears | src/main/java/uk/ac/soton/comp1206/game/Game.java:144-184 | `lines` is full columns plus full rows, the coordinate set is their union of cells, and `blocks` is its size |
| Scoring.ScoreGain | src/main/java/uk/ac/soton/comp1206/game/Game.java:197-199 | the points are non-negative, and zero iff no line or no block was cleared |
| Scoring.LevelFor | src/main/java/uk/ac/soton/comp1206/game/Game.java:220-222 | the level is the number of whole thousands in the score |
| Scoring.DelayFor | src/main/java/uk/ac/soton/comp1206/game/Game.java:223 | the delay lies in [2500, 12000]: `12000 − 500·level` up to level 19, 2500 from then on |
| Scoring.LevelMonotone | src/main/java/uk/ac/soton/comp1206/game/Game.java:220-222 | a higher score never gives a lower level |
| Scoring.DelayMonotone | src/main/java/uk/ac/soton/comp1206/game/Game.java:223 | a higher level never gives a longer delay |
| Scoring.NextMultiplier | src/main/java/uk/ac/soton/comp1206/game/Game.java:205-213 | the new multiplier is 1 or old+1; from a multiplier of at least 1 it stays at least 1, and it is above 1 iff lines were cleared |
| Scoring.Scored | src/main/java/uk/ac/soton/comp1206/game/Game.java:188-225 | one scoring event never lowers the score, keeps the multiplier at least 1, sets the level to `score / 1000`, and with no lines leaves the score alone and resets the multiplier to 1 |
| Scoring.ScoredLaws | src/main/java/uk/ac/soton/comp1206/game/Game.java:188-225 | one scoring event adds exactly `lines·blocks·10·multiplier` with the old multiplier, never lowers the score, leaves it unchanged with zero lines, sets the multiplier to old+1 or 1, re-establishes `level == score / 1000` with a non-decreasing level, and keeps the delay consistent, within bounds and non-increasing |
| Game.SingleRowClear | src/main/java/uk/ac/soton/comp1206/game/Game.java:188-199 | on the 5×5 board, one full row and no full column clear one line of five cells, and a fresh game then has score 50 and multiplier 2 |
| Game.Game.constructor | src/main/java/uk/ac/soton/comp1206/game/Game.java:56-74 | a new game has an empty grid, no pieces, score 0, level 0, lives 3, multiplier 1, delay 12000, no listeners and no countdown |
| Game.Game.SetNextPieceListener | src/main/java/uk/ac/soton/comp1206/game/Game.java:309-311 | the current-piece listener is attached |
| Game.Game.SetFollowingPieceListener | src/main/java/uk/ac/soton/comp1206/game/Game.java:313-315 | the following-piece listener is attached |
| Game.Game.SetLineClearedListener | src/main/java/uk/ac/soton/comp1206/game/Game.java:365-367 | the line-cleared listener is attached |
| Game.Game.SetGameLoopListener | src/main/java/uk/ac/soton/comp1206/game/Game.java:377-379 | the game-loop listener is attached |
| Game.Game.BuildTimer | src/main/java/uk/ac/soton/comp1206/game/Game.java:259-269 | the listener is told the current delay and lives, and the countdown is armed with the current delay |
| Game.Game.Start | src/main/java/uk/ac/soton/comp1206/game/Game.java:79-90 | starting arms the first countdown, exactly as `buildTimer` |
| Game.Game.SpawnPiece | src/main/java/uk/ac/soton/comp1206/game/Game.java:119-121 | one random draw gives the catalog piece of the drawn index |
| Game.Game.NextPiece | src/main/java/uk/ac/soton/comp1206/game/Game.java:126-136 | the old following piece becomes current (a fresh one when there is none), exactly one fresh following piece is drawn (two draws only on the first call), and the set listeners are told current, then following |
| Game.Game.RotateCurrentPiece | src/main/java/uk/ac/soton/comp1206/game/Game.java:231-235 | the current piece keeps its colour and takes the rotated footprint, and the listener is told |
| Game.Game.SwapCurrentPiece | src/main/java/uk/ac/soton/comp1206/game/Game.java:240-252 | nothing is drawn; current becomes the old following piece, and following becomes `createPiece(old current value − 1)`; then the set listeners are told |
| Game.Game.PlayPiece | src/main/java/uk/ac/soton/comp1206/game/Game.java:108 | the piece's colour is written into exactly the cells of its footprint, and every other cell keeps its value |
| Game.Game.ClearCells | src/main/java/uk/ac/soton/comp1206/scene/ChallengeScene.java:170-173 | every given cell becomes 0, and every other cell keeps its value |
| Game.Game.Score | src/main/java/uk/ac/soton/comp1206/game/Game.java:197-199 | the score grows by the placement's points at the current multiplier |
| Game.Game.ChangeMultiplier | src/main/java/uk/ac/soton/comp1206/game/Game.java:205-213 | the multiplier becomes old+1 after a clear, and 1 otherwise |
| Game.Game.ChangeLevel | src/main/java/uk/ac/soton/comp1206/game/Game.java:219-225 | an unchanged level leaves level and delay alone; a changed level is set to `score / 1000`, with the delay recomputed from it |
| Game.Game.UpdateStats | src/main/java/uk/ac/soton/comp1206/game/Game.java:188-190 | score, then multiplier, then level give exactly one scoring event on the old state, and the state stays consistent |
| Game.Game.AfterPiece | src/main/java/uk/ac/soton/comp1206/game/Game.java:143-191 | the listener is told the distinct cells of the full columns and rows; those cells become empty; score, multiplier, level and delay follow one scoring event with that many lines and cells |
| Game.Game.ClearAndRearm | src/main/java/uk/ac/soton/comp1206/game/Game.java:111-112 | the full lines of the board are cleared and scored as one scoring event, then the countdown is re-armed with the current delay, with the cleared call before the armed call |
| Game.Game.Place | src/main/java/uk/ac/soton/comp1206/game/Game.java:107-112 | an accepted placement writes the piece, advances the pieces (one random draw, two on the first call), clears and scores the placed board, and re-arms the countdown, with the listener calls in that order |
| Game.Game.BlockClicked | src/main/java/uk/ac/soton/comp1206/game/Game.java:96-113 | a rejected placement changes nothing (grid, pieces, score, multiplier, level, lives, timer, events); an accepted one clears the full lines of the placed board, adds exactly `lines·blocks·10·old multiplier`, sets the multiplier to old+1 or 1, never lowers the level, keeps the lives, advances the pieces with one random draw (two on the first call), emits advance → cleared (even for no cells) → armed, and arms the countdown |
| Game.Game.GameLoop | src/main/java/uk/ac/soton/comp1206/game/Game.java:274-283 | an expiry costs exactly one life, advances the pieces, resets the multiplier to 1, leaves score, level, delay and grid alone, and re-arms the countdown iff lives remain; otherwise it only tells the listener with lives 0 |
| Game.Game.RestartOrEnd | src/main/java/uk/ac/soton/comp1206/game/Game.java:279-282 | the listener is told delay and lives either way, and the countdown is armed iff lives are not 0 |
| PieceBoard.Preview | src/main/java/uk/ac/soton/comp1206/component/PieceBoard.java:34-44 | the shown board is 3×3; a cell has the piece's colour where the footprint is set and 0 elsewhere; no other colour appears; for a real colour, a cell is non-zero iff the footprint is set |
| PieceBoard.PieceBoard.constructor | src/main/java/uk/ac/soton/comp1206/component/PieceBoard.java:18-20 | a new preview board is 3×3 and empty, with no listeners |
| PieceBoard.PieceBoard.SetOnRotate | src/main/java/uk/ac/soton/comp1206/component/PieceBoard.java:52-54 | the rotate listener is attached |
| PieceBoard.PieceBoard.SetOnSwap | src/main/java/uk/ac/soton/comp1206/component/PieceBoard.java:60-62 | the swap listener is attached |
| PieceBoard.PieceBoard.NextPiece | src/main/java/uk/ac/soton/comp1206/component/PieceBoard.java:30-45 | after the nested loops the whole grid is exactly the preview of the piece, so nothing of the previous piece survives |
| PieceBoard.PieceBoard.BlockClicked | src/main/java/uk/ac/soton/comp1206/component/PieceBoard.java:72-79 | a click calls the rotate listener first and then the swap listener, each only when attached |
| PieceBoard.ShowTwice | src/main/java/uk/ac/soton/comp1206/component/PieceBoard.java:37-44 | showing the same piece twice leaves the board as showing it once |
| ScoreLines.SplitAllLaws | src/main/java/uk/ac/soton/comp1206/scene/ScoresScene.java:103 | splitting at every dash gives at least one piece, and no piece holds a dash |
| ScoreLines.DropTrailingEmptyLaws | src/main/java/uk/ac/soton/comp1206/scene/ScoresScene.java:103 | dropping trailing empty pieces keeps a prefix that ends in a non-empty piece and removes only empty ones |
| ScoreLines.Split | src/main/java/uk/ac/soton/comp1206/scene/ScoresScene.java:103 | a dash-free string is its own only field, and there are at most one more fields than characters |
| ScoreLines.SplitLaws | src/main/java/uk/ac/soton/comp1206/scene/ScoresScene.java:103 | no field of `split("-")` holds a dash |
| ScoreLines.ParseInt | src/main/java/uk/ac/soton/comp1206/scene/ScoresScene.java:105 | a parsed number is within the `int` range, and non-negative when the text has no minus sign (also used at line 148) |
| ScoreLines.ParseIntLaws | src/main/java/uk/ac/soton/comp1206/scene/ScoresScene.java:105 | plain ASCII digits within the `int` range parse to their decimal value |
| ScoreLines.ParseLine | src/main/java/uk/ac/soton/comp1206/scene/ScoresScene.java:102-105 | a line that reads gives a dash-free name and a score in `[0, 2^31 − 1]` (lines 146-148 read a line the same way) |
| ScoreLines.NatDigits | src/main/java/uk/ac/soton/comp1206/scene/ScoresScene.java:124 | a number is written as at least one decimal digit |
| ScoreLines.FormatInt | src/main/java/uk/ac/soton/comp1206/scene/ScoresScene.java:124 | `Integer.toString` is non-empty, and all digits iff the value is non-negative |
| ScoreLines.FormatEntry | src/main/java/uk/ac/soton/comp1206/scene/ScoresScene.java:124 | the written line is the name, then a dash, then a non-empty score text that is all digits iff the score is non-negative |
| ScoreLines.DigitsRoundTrip | src/main/java/uk/ac/soton/comp1206/scene/ScoresScene.java:124 | reading the written digits of n gives n |
| ScoreLines.FormatParseRoundTrip | src/main/java/uk/ac/soton/comp1206/scene/ScoresScene.java:103-124 | an entry with a dash-free name and a score in `[0, 2^31 − 1]` reads back from its written line unchanged |
| ScoreLines.ParsedLineRewrites | src/main/java/uk/ac/soton/comp1206/scene/ScoresScene.java:103-124 | every entry read from some line is read back unchanged after being written |
| ScoreLines.DashedNameUnreadable | src/main/java/uk/ac/soton/comp1206/scene/ScoresScene.java:124 | the written line for name `a-b`, score 50 does not read back |
| ScoreLines.NegativeScoreUnreadable | src/main/java/uk/ac/soton/comp1206/scene/ScoresScene.java:124 | the written line for score −5 does not read back |
| ScoreLines.ScannerLines | src/main/java/uk/ac/soton/comp1206/scene/ScoresScene.java:101-102 | the lines `hasNextLine`/`nextLine` yield: never more lines than characters, and no lines exactly for an empty text |
| ScoreLines.LineEnd | src/main/java/uk/ac/soton/comp1206/scene/ScoresScene.java:101-102 | the first line ends at the first line terminator, or at the end of the text when there is none |
| ScoreLines.FileText | src/main/java/uk/ac/soton/comp1206/scene/ScoresScene.java:123-126 | each written line is followed by a newline, so the text has at least one character per line |
| ScoreLines.FileTextSnoc | src/main/java/uk/ac/soton/comp1206/scene/ScoresScene.java:123-126 | writing one more line appends it and a newline to the text |
| ScoreLines.ScannerLinesCons | src/main/java/uk/ac/soton/comp1206/scene/ScoresScene.java:101-102 | a text that starts with a line free of terminators, then `\n`, U+0085, U+2028 or U+2029, scans as that line followed by the lines of the rest |
| ScoreLines.ScannerLinesCrLf | src/main/java/uk/ac/soton/comp1206/scene/ScoresScene.java:101-102 | `\r\n` ends a line as one terminator: the line before it is scanned, and the next line starts after the `\n` |
| ScoreLines.ScannerLinesLoneCr | src/main/java/uk/ac/soton/comp1206/scene/ScoresScene.java:101-102 | a `\r` not followed by `\n` ends a line by itself |
| ScoreLines.ScannerLinesLast | src/main/java/uk/ac/soton/comp1206/scene/ScoresScene.java:101-102 | an empty text has no lines, and a last line without a terminator is still a line |
| ScoreLines.FileTextCrLf | src/main/java/uk/ac/soton/comp1206/scene/ScoresScene.java:123-126 | the text written where `newLine` is `\r\n` has two separator characters per line |
| ScoreLines.ScannerLinesRoundTripCrLf | src/main/java/uk/ac/soton/comp1206/scene/ScoresScene.java:101-126 | lines free of line terminators, written with `\r\n` after each and scanned again, come back unchanged |
| ScoreLines.ScannerLinesRoundTrip | src/main/java/uk/ac/soton/comp1206/scene/ScoresScene.java:101-126 | lines free of line terminators, written one per line and scanned again, come back unchanged |
| ScoreLines.FormatEntryOneLine | src/main/java/uk/ac/soton/comp1206/scene/ScoresScene.java:124 | an entry whose name has no line terminator is written as a line with no line terminator |
| ScoreLines.SeparatorNameSplits | src/main/java/uk/ac/soton/comp1206/scene/ScoresScene.java:101-125 | the name `a` U+2028 `b` with score 5 is written as one line and scanned as the two lines `a` and `b-5` |
| ScoreLines.DashedSeparatorNameText | src/main/java/uk/ac/soton/comp1206/scene/ScoresScene.java:123-126 | the name `x-3` U+2028 `y` with score 5 is written as the text `x-3`, U+2028, `y-5`, newline |
| ScoreLines.DashedSeparatorNameSplits | src/main/java/uk/ac/soton/comp1206/scene/ScoresScene.java:101-125 | that entry is written as one line and scanned as the two lines `x-3` and `y-5` |
| ScoreLines.DashedTextScans | src/main/java/uk/ac/soton/comp1206/scene/ScoresScene.java:101-102 | the text `x-3`, U+2028, `y-5`, newline scans as the lines `x-3` and `y-5` |
| ScoreLines.LastLineScans | src/main/java/uk/ac/soton/comp1206/scene/ScoresScene.java:101-102 | a line with no terminator, followed by a newline, scans as that one line |
| ScoreLines.DashedHalvesRead | src/main/java/uk/ac/soton/comp1206/scene/ScoresScene.java:103-105 | each half, `x-3` and `y-5`, reads as an entry of its own |
| ScoreLines.LoneNameUnreadable | src/main/java/uk/ac/soton/comp1206/scene/ScoresScene.java:103-105 | a line with no dash has no score field and does not read |
| Scores.InsertIndex | src/main/java/uk/ac/soton/comp1206/scene/ScoresScene.java:107-111 | the insertion point is the first index whose score is strictly less: every entry before it scores at least as much |
| Scores.FindInsertIndex | src/main/java/uk/ac/soton/comp1206/scene/ScoresScene.java:107-111 | the scanning loop stops exactly at `InsertIndex` |
| Scores.Insert | src/main/java/uk/ac/soton/comp1206/scene/ScoresScene.java:107-113 | one insertion gives one entry more, the new entry at the insertion point, and otherwise the same entries (as a multiset) |
| Scores.InsertPositions | src/main/java/uk/ac/soton/comp1206/scene/ScoresScene.java:113 | entries before the insertion point stay in place, the new entry is at that point, and the others move up by one |
| Scores.InsertRemove | src/main/java/uk/ac/soton/comp1206/scene/ScoresScene.java:113 | removing the inserted entry gives back the old list |
| Scores.InsertTies | src/main/java/uk/ac/soton/comp1206/scene/ScoresScene.java:109 | in a sorted list, every entry with the same score ends up before the new one |
| Scores.InsertSorted | src/main/java/uk/ac/soton/comp1206/scene/ScoresScene.java:107-113 | insertion keeps a list in non-increasing score order |
| Scores.InsertLaws | src/main/java/uk/ac/soton/comp1206/scene/ScoresScene.java:107-113 | one insertion adds exactly one entry at the insertion point, keeps the old entries in order, keeps sortedness, and places the new entry after ties |
| Scores.ReadLines | src/main/java/uk/ac/soton/comp1206/scene/ScoresScene.java:101-105 | the k-th line is read as the k-th entry (or an error) |
| Scores.Load | src/main/java/uk/ac/soton/comp1206/scene/ScoresScene.java:101-114 | reading adds at most one entry per line, and exactly one per line when it succeeds |
| Scores.LoadOk | src/main/java/uk/ac/soton/comp1206/scene/ScoresScene.java:101-114 | reading succeeds iff every line reads |
| Scores.LoadSorted | src/main/java/uk/ac/soton/comp1206/scene/ScoresScene.java:101-114 | reading into a sorted table keeps it sorted |
| Scores.LoadEmbeds | src/main/java/uk/ac/soton/comp1206/scene/ScoresScene.java:101-114 | the entries already in the table keep their relative order |
| Scores.ReadEntries | src/main/java/uk/ac/soton/comp1206/scene/ScoresScene.java:101-105 | the entries read form a multiset with at most one element per line |
| Scores.ReadEntriesOf | src/main/java/uk/ac/soton/comp1206/scene/ScoresScene.java:101-105 | lines that read, in order, as the entries of a list give exactly that list's entries as a multiset |
| Scores.LoadMultiset | src/main/java/uk/ac/soton/comp1206/scene/ScoresScene.java:101-114 | when every line reads, the table ends up holding exactly its old entries plus the entries read, as a multiset |
| Scores.LoadLaws | src/main/java/uk/ac/soton/comp1206/scene/ScoresScene.java:101-114 | over the file's lines: sortedness kept, one entry per line read, success iff every line reads, then exactly the old entries and the entries read (as a multiset), old entries in their order |
| Scores.WriteLines | src/main/java/uk/ac/soton/comp1206/scene/ScoresScene.java:123-126 | one `name-score` line per entry, in list order |
| Scores.InsertAtEnd | src/main/java/uk/ac/soton/comp1206/scene/ScoresScene.java:107-113 | an entry scoring no more than every entry so far is inserted at the end |
| Scores.WrittenLinesRead | src/main/java/uk/ac/soton/comp1206/scene/ScoresScene.java:101-126 | for names with no dash and no line terminator and scores in `[0, 2^31 − 1]`, the written text scans and reads back line by line as the table's entries, in order |
| Scores.WriteLoadRoundTrip | src/main/java/uk/ac/soton/comp1206/scene/ScoresScene.java:101-126 | a sorted table whose names hold no dash and no line terminator and whose scores are in `[0, 2^31 − 1]`, written as text and then scanned and read into an empty table, comes back unchanged and without error |
| Scores.WriteLoadUnsorted | src/main/java/uk/ac/soton/comp1206/scene/ScoresScene.java:101-126 | any such table, sorted or not, written and read into an empty table, loads without error, sorted, with the same entries as a multiset |
| Scores.EnterReload | src/main/java/uk/ac/soton/comp1206/scene/ScoresScene.java:52-53 | after ENTER appends a storable entry to a storable table and writes it, the file loads without error, sorted, holding the old entries and the new one |
| Scores.DashedSeparatorNameForges | src/main/java/uk/ac/soton/comp1206/scene/ScoresScene.java:101-126 | a table holding only the name `x-3` U+2028 `y` with score 5, written and read back, loads without error as the two made-up entries `y` 5 and `x` 3 |
| Scores.DashedLinesRead | src/main/java/uk/ac/soton/comp1206/scene/ScoresScene.java:101-105 | the lines `x-3` and `y-5` read as the entries `x` 3 and `y` 5 |
| Scores.DashedEntriesLoad | src/main/java/uk/ac/soton/comp1206/scene/ScoresScene.java:107-113 | reading `x` 3 then `y` 5 into an empty table puts `y` first |
| Scores.SeparatorNameBreaksTable | src/main/java/uk/ac/soton/comp1206/scene/ScoresScene.java:101-126 | a table holding only the name `a` U+2028 `b` with score 5, written and read back, gives an error and an empty table |
| Scores.MaxScore | src/main/java/uk/ac/soton/comp1206/scene/ScoresScene.java:137-151 | the result is ≥ 0 and ≥ every score, and is 0 or one of the scores; it is 0 for no scores |
| Scores.FileScores | src/main/java/uk/ac/soton/comp1206/scene/ScoresScene.java:145-148 | a list of scores exists only with one score per line |
| Scores.FileScoresRead | src/main/java/uk/ac/soton/comp1206/scene/ScoresScene.java:145-148 | the file's scores exist iff every line reads, and then there is one per line |
| Scores.FileScoresAt | src/main/java/uk/ac/soton/comp1206/scene/ScoresScene.java:145-148 | the k-th score is the score of the k-th line |
| Scores.FileScoresLaws | src/main/java/uk/ac/soton/comp1206/scene/ScoresScene.java:145-148 | over the lines: the scores exist iff every line parses, one per line, each the line's parsed score |
| Scores.FileScoresNoneStays | src/main/java/uk/ac/soton/comp1206/scene/ScoresScene.java:145-148 | once a prefix of the file fails to read, the whole file fails |
| Scores.HighScore | src/main/java/uk/ac/soton/comp1206/scene/ScoresScene.java:136-152 | over the lines scanned from the file text: the fold succeeds iff every line reads, and then returns the maximum of 0 and every line's score |
| Scores.MaxLineScore | src/main/java/uk/ac/soton/comp1206/scene/ScoresScene.java:137-151 | the loop over the lines succeeds iff every line reads, and then returns the maximum of 0 and every line's score |
| Scores.HighScoreEmpty | src/main/java/uk/ac/soton/comp1206/scene/ScoresScene.java:137-151 | an empty file gives high score 0 |
| Scores.FormatFile | src/main/java/uk/ac/soton/comp1206/scene/ScoresScene.java:123-126 | the writing loop produces the text of one formatted line and a newline per entry, in order |
| Scores.ScoresScene.constructor | src/main/java/uk/ac/soton/comp1206/scene/ScoresScene.java:37-43 | a new scene has an empty table and the given game and file |
| Scores.ScoresScene.LoadScores | src/main/java/uk/ac/soton/comp1206/scene/ScoresScene.java:93-115 | the table becomes every line scanned from the file text, inserted in turn; at the first malformed line, reading stops with an error and keeps what was inserted so far |
| Scores.ScoresScene.WriteScores | src/main/java/uk/ac/soton/comp1206/scene/ScoresScene.java:119-131 | the file text becomes one line and a newline per entry of the table, in order |
| Scores.ScoresScene.PressEnter | src/main/java/uk/ac/soton/comp1206/scene/ScoresScene.java:51-55 | the player's name and the game's score are appended at the end, without re-sorting, and the file text is rewritten from the new table |

## Left out

- Audio (every `playAudio` call) has no effect on the game's state.
- Timer scheduling and `Platform.runLater` are concurrency plumbing. The countdown is the pair `timerArmed`/`armedDelay`, and its expiry is a call of `GameLoop`.
- The line clear in the UI runs on a thread that first sleeps 250 ms, so it can race with later placements. It is modelled as immediate, inside `AfterPiece`.
- Rendering, fade-out animation, the countdown bar, layout and property binding are outside the rules engine. Properties are plain fields.
- File access has no logical content here. The score file is its text, a `string`.
- The round trip assumes the platform's default charset can encode every character of a name. `FileWriter` and `Scanner` use that charset, and a character it cannot map is written as `?`, so such a name does not come back unchanged.
- `BufferedWriter.newLine` writes the platform line separator; `Scores.ScoresScene.WriteScores` writes `\n`. A `\r\n` separator scans the same way (`ScoreLines.ScannerLinesRoundTripCrLf`).
- Scores.ScoresScene.LoadScores: a missing file, where the Java code goes on to dereference a null scanner, is not modelled. The file always has a text.
- Scores.ScoresScene.LoadScores: a malformed line stops reading with `ok == false` in place of the Java exception.
- Scores.HighScore: a malformed line returns `None` in place of the Java exception.
- `Math.random` is replaced by roll parameters in `[0, 15)`.
- `Grid.canPlayPiece`, `Grid.playPiece`, `GamePiece.rotate` and the catalog's shapes are not part of this model. They are parameters, so no footprint or rotation rule is assumed, and the four-rotations identity of pieces is not stated.
- Game.Game.BlockClicked: 32-bit wrap-around of `score` and `lines*blocks*10*multiplier` is not modelled, because integers are unbounded.
- ScoreLines.ParseInt: Unicode digits outside ASCII, which `Integer.parseInt` also accepts, are not modelled.
- Non-square boards are excluded with `cols == rows`. The row pass of `afterPiece` compares against `getCols()` and swaps indices, which is only right for a square board.
- The getters and the plain setters (`setScore`, `setLevel`, `setLives`, `setMultiplier`, `setTimerDelay`, `getGrid`) only read or overwrite one field.
- The ESCAPE key is scene navigation and audio only. The `ScoresList` top-10 view, the `NextPieceListener` interface and the keyboard aim cursor of `ChallengeScene` are UI code.
- Listener callbacks are recorded as `Event`/`Call` values instead of being run. What the listeners do is not modelled, except the line clear.
