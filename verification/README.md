# A Dafny model of the connect_four.go packed board

`connect_four.go` packs a Connect Four position into an 8-byte
`compressed_board`:

- one bit per cell of seven six-row columns;
- a 3-bit height counter per column;
- a turn bit.

The packing is spelled out as tables of `(start_byte, masks)` pairs. The
board has four operations:

- `read_height` decodes a counter.
- `check_spot` reads one cell.
- `check_spot_distances` and `check_diags_from_end` look for a diagonal
  line through a cell.
- `apply_turn_in_place` and `apply_turn_copy` drop a piece and pass the
  turn.

The model has five modules, one per layer:

- `Layout`: the bitmask constants and the column, height and turn tables. It
  proves that they describe a packed, collision-free layout: cell `(c, r)` is
  bit `6c + r`, digit `j` of counter `c` is bit `42 + 3c + j`, and the turn is
  bit 63. Bits are numbered most significant first. It also proves the
  byte-wrap rule that every loop over a table relies on.
- `Board`: the buffer as a `seq<bv8>` of length 8, an error datatype in place
  of Go's `error` values, and the readers `read_height`, `check_spot` and the
  turn test.
- `Decoded`: the game the buffer stands for. A position is seven stacks of
  pieces plus the player to move. `Encode` and `Decode` are proved to be
  inverse on well-formed buffers: every counter is at most MAX_HEIGHT and
  every cell at or above its column's counter is clear. `Play` is the move on
  positions. The all-zero buffer is the start of a game.
- `Moves`: `apply_turn_in_place` step by step. Each step is proved to do what
  it is for: the counter increment by the flip vector, the piece placement
  and the turn flip. The whole move is proved to refine `Play`, and so is a
  game of moves. Every buffer a game reaches from the all-zero board is
  therefore well formed. The converse fails: a well-formed buffer may have a
  turn bit that disagrees with its piece count.
- `Diagonals`: `check_spot_distances` and `check_diags_from_end`. The scan is
  related to a declarative reading (a verdict per direction) and to the
  decoded board. A reported win at a One piece is a diagonal line of One
  pieces. A reported win at a Zero piece only says that the three spots read
  as 0: an empty spot on top of a column reads that way too, so such a "line"
  may contain empty spots.

Several statements in `connect_four.go` do not do what the surrounding code
and names evidently intend (see "## Findings"). Each such statement is
modelled twice. An as-written member reproduces it, and a lemma exhibits an
input on which it goes wrong. A corrected member states the intended
behaviour, and the rest of the model uses that one.

## Model

| member | source | states |
|---|---|---|
| Layout.Mask | connect_four.go:8-15 | BITMASK_i is never zero (the table of single-bit masks, most significant first) |
| Layout.OffsetPastWrap | connect_four.go:166-173 | walking a mask list, the byte offset is 0 up to and including the BITMASK_7 entry and 1 after it |
| Layout.OffsetWithoutWrap | connect_four.go:281-289 | a mask list with no BITMASK_7 before entry j never leaves its start byte |
| Layout.MaskInjective | connect_four.go:8-15 | distinct mask indices give distinct masks |
| Layout.ColumnLayout | connect_four.go:37-70 | row r of column table c lands on the bit of cell 6c+r |
| Layout.CounterLayout | connect_four.go:93-126 | digit j of height table c (with HEIGHT_4 at byte 6) lands on bit 42+3c+j |
| Layout.LayoutIsArithmetic | connect_four.go:23-131 | every cell, counter digit and turn slot of the tables is the arithmetic bit of that field |
| Layout.LayoutPacked | connect_four.go:23-131 | every field bit lies in the 8-byte buffer and no two field instances share a (byte, mask) bit |
| Layout.LiteralHeight4Collides | connect_four.go:113-116 | the literal HEIGHT_4 table shares a bit with HEIGHT_6, its middle digit is the turn bit, and its last digit addresses byte 8 |
| Layout.MaskOrder | connect_four.go:155 | a mask is larger than another exactly when it comes earlier in the byte |
| Layout.NextBitSlot | connect_four.go:170-172 | the bit after k is in the next byte exactly when k's mask is BITMASK_7, and otherwise is the mask shifted right |
| Layout.ColumnWrapRule | connect_four.go:155-156 | in every column table, an entry's successor is in the next byte exactly when the entry is BITMASK_7, and otherwise carries the mask shifted right; so a table steps to start_byte+1 at most once, right after a BITMASK_7 entry that is not its last |
| Layout.CounterWrapRule | connect_four.go:166-173 | every height table wraps to the next byte exactly after BITMASK_7 |
| Layout.ColumnWrapTest | connect_four.go:155-156 | check_spot's test masks[h] > masks[0] holds exactly when row h lies in start_byte+1; otherwise row h is in start_byte |
| Board.MaskBits | connect_four.go:283 | XOR with one mask toggles exactly that bit, and OR with one mask sets exactly that bit |
| Board.FlipBit | connect_four.go:283 | XOR-ing one table mask into its byte toggles that bit and leaves all 63 others |
| Board.FlipBitAt | connect_four.go:283 | the byte-level XOR at bit k changes bit k and no other bit |
| Board.WriteBit | connect_four.go:282-283 | a conditional flip that sets bit k to a given value and keeps every other bit |
| Board.BitsDetermineBuffer | connect_four.go:136-138 | two buffers that agree on all 64 bits are equal |
| Board.ReadHeight | connect_four.go:164-175 | read_height with OR is the counter read most significant digit first, a value in 0..7 |
| Board.ReadHeightAsWrittenLosesCounter | connect_four.go:168 | read_height as written always returns 0, so it disagrees with every nonzero counter |
| Board.CheckSpot | connect_four.go:150-162 | check_spot fails exactly when the spot is above the column height; otherwise it returns 0 or the cell's mask, nonzero exactly when the cell bit is set |
| Board.WrapByte | connect_four.go:155-156 | the byte check_spot picks is the byte the table walk reaches and the byte of bit 6c+h |
| Board.CheckSpotAsWrittenMisreads | connect_four.go:159 | with line 159 overwriting the wrapped read, a set cell in the second byte of column 1 reads as 0 |
| Board.ReadTurn | connect_four.go:292 | the turn test reads bit 63 |
| Board.HeightRoundTrip | connect_four.go:164-175 | writing v < 8 into counter c and reading it back gives v, and the other 61 bits are untouched |
| Decoded.Decode | connect_four.go:139-142 | every well-formed buffer decodes to a valid position of seven stacks of at most MAX_HEIGHT pieces |
| Decoded.ByteOfBits | connect_four.go:8-15 | the byte assembled from eight flags has mask i set exactly when flag i holds |
| Decoded.Encode | connect_four.go:23-131 | bit k of an encoded position is the position's bit k in the packed layout |
| Decoded.EncodedHeight | connect_four.go:164-175 | read_height of an encoded position is the stack height of that column |
| Decoded.EncodedCell | connect_four.go:150-162 | a cell of an encoded position is set exactly when it holds a One piece |
| Decoded.DigitsValue | connect_four.go:168 | the three counter digits of v < 8, weighted 4, 2, 1, give back v |
| Decoded.ValueDigits | connect_four.go:168 | the counter digits of the value of three digits are those digits |
| Decoded.EncodedWellFormed | connect_four.go:17 | an encoded position has every counter at most MAX_HEIGHT and every cell above it clear |
| Decoded.DecodesColumn | connect_four.go:150-175 | a column whose counter and cells agree with a stack decodes to that stack |
| Decoded.DecodeEncode | connect_four.go:136-142 | decoding the encoding of a valid position gives the position back |
| Decoded.EncodeDecode | connect_four.go:136-142 | encoding the decoding of a well-formed buffer gives the buffer back, all 64 bits |
| Decoded.Play | connect_four.go:264-305 | a move on positions keeps the position valid |
| Decoded.PlayMoves | connect_four.go:264-305 | a game of moves on positions keeps the position valid |
| Decoded.EmptyBoardStart | connect_four.go:136-138 | the all-zero buffer is well formed and decodes to seven empty columns with Zero to move |
| Moves.HeightFlips | connect_four.go:278-279 | the flip vector of h has one entry per counter digit |
| Moves.HeightFlipsChangeDigits | connect_four.go:278-279 | entry j of the flip vector holds exactly when digit j of h and of h+1 differ |
| Moves.FlipEntryIsFlipBit | connect_four.go:281-289 | toggling entry j of column c's height table stays inside the buffer and toggles exactly counter bit j of column c |
| Moves.IncrementHeight | connect_four.go:281-289 | the flip loop XORs each digit of counter c with its flip and changes no bit outside that counter |
| Moves.IncrementIsWriteCounter | connect_four.go:278-289 | flipping a counter that holds h writes h+1 into it |
| Moves.HeightIncrement | connect_four.go:278-289 | after the flip loop, read_height returns one more than before |
| Moves.PlacePiece | connect_four.go:294-299 | placing a piece sets exactly the bit of cell (c, h) and keeps all others |
| Moves.PlacePieceAsWrittenMisplaces | connect_four.go:295-299 | with AND and the inverted byte choice, the target cell stays clear and a neighbouring cell's bit is cleared |
| Moves.FlipTurn | connect_four.go:302-303 | the turn flip toggles bit 63 and no other bit |
| Moves.ApplyTurn | connect_four.go:264-305 | a move is refused with InvalidColumn exactly past column 6; otherwise with ColumnFull exactly when the counter is at least MAX_HEIGHT; when accepted, the counter rises by one, cell (c, h) gains the turn bit, the turn flips, and no other bit changes |
| Moves.ApplyTurnCopy | connect_four.go:307-310 | the copying move returns the buffer unchanged exactly when the move is refused, and the moved buffer otherwise |
| Moves.TwoMovesRestoreTurn | connect_four.go:302-303 | two accepted moves give the turn back |
| Moves.MoveKeepsOtherColumn | connect_four.go:281-303 | a move leaves every other column's counter and cells as they were |
| Moves.MoveKeepsOtherCells | connect_four.go:294-299 | a move changes no cell of its own column other than row h |
| Moves.MovePreservesWellFormed | connect_four.go:264-305 | a move from a well-formed buffer leads to a well-formed buffer |
| Moves.MoveDecodesColumns | connect_four.go:264-305 | in decoded terms, a move puts the mover's piece on top of column c and leaves other columns alone |
| Moves.MoveDecodesToPlay | connect_four.go:278-303 | any buffer with an accepted move's effect on a well-formed buffer is well formed and decodes to the game's next position |
| Moves.MoveRefinesPlay | connect_four.go:264-305 | on a well-formed buffer, apply_turn_in_place is refused exactly when Play is, with the same error; otherwise it yields a well-formed buffer that decodes to Play's position |
| Moves.MovesRefinePlays | connect_four.go:264-305 | on a well-formed buffer, a sequence of moves is refused exactly when the same game on the decoded position is, with the same error; otherwise it ends on a well-formed buffer that decodes to the game's final position |
| Moves.ReachedWellFormed | connect_four.go:264-305 | a game from the all-zero board fails exactly when the same game from the start position does; otherwise the buffer it reaches is well formed and decodes to the position that game reaches |
| Moves.FullColumnAccepted | connect_four.go:271-277 | with line 273 as written, a full column is accepted and its counter drops to 4, where the corrected move refuses it |
| Diagonals.CheckSpotDistances | connect_four.go:177-201 | the distance check fails exactly when the spot is above the column height; otherwise each direction's flag holds exactly when all three steps stay in the grid |
| Diagonals.DistanceFlagsFit | connect_four.go:187-196 | the four flag formulas are exactly in-grid tests for three diagonal steps |
| Diagonals.WalkFitsAtThirdStep | connect_four.go:187-196 | from an in-grid origin, all three steps fit exactly when the third does |
| Diagonals.SomeDirectionDisabled | connect_four.go:213-226 | at every origin at least one direction is disabled, so increment_funcs always has a nil slot |
| Diagonals.WalkSteps | connect_four.go:232-244 | the inner walk fails exactly when some step lies above its column's height; otherwise each read is nonzero exactly when that step's cell is set, and it is either 0 or the step's mask |
| Diagonals.StepRead | connect_four.go:237 | check_spot at a step fails exactly when the step is above its column's height, and otherwise reads its cell |
| Diagonals.ScanFrom | connect_four.go:231-251 | the remaining directions of the scan can only fail with a wrapped SpotAboveHeight |
| Diagonals.CheckDiagsFromEnd | connect_four.go:203-252 | the win check fails with SpotAboveHeight exactly when the origin is above its column's height; any other failure is a walk that reached such a spot |
| Diagonals.Decide | connect_four.go:231-251 | in the verdict reading, no win exactly when no direction fails or shows a line; a failure only if some direction fails; a win exactly when a line precedes every failure |
| Diagonals.ScanAgreesWithVerdicts | connect_four.go:231-251 | the scan over the remaining directions equals the verdict reading of those directions |
| Diagonals.CheckDiagsFromEndDecides | connect_four.go:203-252 | the win check is the verdict reading of the four directions in increment_funcs order |
| Diagonals.WalkFailsOnFailedVerdict | connect_four.go:237-240 | a direction's verdict is Failed exactly when its walk errs |
| Diagonals.WalkMatchesOnLine | connect_four.go:241-248 | a direction's verdict is Line exactly when all three reads match the origin's occupancy |
| Diagonals.CellReadsAs | connect_four.go:150-162 | the cell check_spot reads at or below the height is, in the decoded board, a piece of the player its bit names, or the empty spot at the height read as Zero |
| Diagonals.WinIsDiagonalLine | connect_four.go:203-252 | a win reported at a piece means that some in-grid diagonal has all three next cells reading as that piece's player: One pieces for a One piece; Zero pieces or empty column tops for a Zero piece |
| Diagonals.EmptyTopsWinForZero | connect_four.go:150-162 | on the well-formed buffer `[0,0,0,0,0,9,76,0]`, a lone Zero piece at (0, 0) whose diagonal spots (1, 1), (2, 2) and (3, 3) are the empty tops of columns of heights 1, 2 and 3 is reported as a win, by the corrected check and by raw comparison alike |
| Diagonals.SwappedClosuresStepAstray | connect_four.go:216-235 | with the arguments swapped, the down-right closure steps left and up; from column 0 it wraps the column to 255 |
| Diagonals.Closures | connect_four.go:213-226 | increment_funcs has four slots, and a slot is nil exactly when its direction is disabled |
| Diagonals.NilClosureCalled | connect_four.go:231-235 | on a board with no line the loop reaches a nil slot and calls it, where skipping it answers no win |
| Diagonals.LastStepOnlyMisjudges | connect_four.go:241-248 | comparing only the last step reports a win on a diagonal whose first step is the other player's |
| Diagonals.RawValuesMissLine | connect_four.go:241 | on the buffer `[129,2,4,0,0,10,112,0]`, four One pieces on the diagonal from (0, 0) are a win, yet raw comparison reports none |
| Diagonals.SampleLineMissed | connect_four.go:241 | on every buffer whose bytes 5 and 6 are 10 and 112 (counters 1, 2, 3, 4 in columns 0 to 3) and whose four up-right cells from (0, 0) are set, the corrected check reports a win and raw comparison does not |
| Diagonals.EmptyTopsWellFormed | connect_four.go:17 | the empty-tops buffer has every counter at most MAX_HEIGHT and no cell set above it |
| Diagonals.StepMaskDiffers | connect_four.go:241 | the mask of the first diagonal step from any cell differs from that cell's own mask |
| Diagonals.RawValuesNeverMatchOne | connect_four.go:241 | at a One piece (a nonzero origin read), comparing raw masked bytes never reports a win, on any buffer, since the first step's mask always differs from the origin's |

Some members carry no contract of their own; their behaviour is stated by
other rows:

- `Layout.OffsetAt`: by `Layout.OffsetPastWrap` and `Layout.OffsetWithoutWrap`.
- `Moves.FlipEntry`: by `Moves.FlipEntryIsFlipBit` and `Moves.IncrementHeight`.
- `Diagonals.DistanceFlags`: by `Diagonals.DistanceFlagsFit` and
  `Diagonals.CheckSpotDistances`.
- `Diagonals.ScanWith`: by `Diagonals.ScanFrom` and
  `Diagonals.CheckDiagsFromEnd`.
- `Diagonals.ScanCallingNil` and `Diagonals.CheckDiagsCallingNil`: by
  `Diagonals.NilClosureCalled`.
- The as-written members named under "## Findings"
  (`Board.CheckSpotAsWritten`, `Board.ReadHeightAsWritten`,
  `Moves.ApplyTurnIgnoringHeight`, `Moves.PlacePieceAsWritten`,
  `Layout.HeightFieldsAsWritten`, `Diagonals.StepAsCalled`,
  `Diagonals.CheckDiagsLastStepOnly`, `Diagonals.CheckDiagsRawValues`): by
  the counterexample lemmas in the same row.

## Left out

- Error values are not formatted. The `errors.New` and `fmt.Sprintf` messages
  (lines 152, 184, 239, 267, 276) become the constructors of `Board.Error`.
  The message that wraps a walk error at line 239 is `WalkFailed(cause)`.
- Go runtime panics are requirements on the caller, not modelled outcomes:
  - indexing a table with a column past 6 or a row past 5 (`c < Columns`, and
    `h < Rows` unless `check_spot` errs first);
  - indexing the buffer past byte 7.
  The nil-closure call at line 235 is the exception: it is modelled as the
  `NilCall` outcome of `Diagonals.CheckDiagsCallingNil`.
- `apply_turn_copy` (lines 307-310) has a value receiver, but that receiver
  shares the slice's backing array, so the caller's board is modified as well.
  `Moves.ApplyTurnCopy` is a pure buffer-to-buffer function and does not model
  this aliasing.
- `Moves.ApplyTurn` returns a new buffer instead of writing in place. The
  promise that a refused move writes no byte is stated by
  `Moves.ApplyTurnCopy`: its result is the unchanged buffer exactly when the
  move is refused.
- Code that never affects a result is not modelled:
  - the unused `PLAYER_ZERO_BOARD` and `PLAYER_ONE_BOARD` constants (lines 20-21);
  - `rich_board` (lines 143-148);
  - the empty loop at lines 198-199;
  - the error ignored at lines 210-211, which cannot be set once
    `check_spot` at line 204 has succeeded, since both test the same
    condition;
  - the commented-out `to_basic_board` (lines 254-262). `Decoded.Decode` is
    the decoding it was meant to be.
- The geometry is the code's: 7 columns, since `turn_column > MAX_COLUMNS`
  accepts 0..6, and 6 rows per column table. The layout comment at lines
  23-30, which lists other splits, is not followed.
- MAX_HEIGHT is 5 and the full-column test is `>=`, so a move never writes
  row 5, and a column holds at most 5 pieces. The model keeps this.
- Diagonals.CellReadsAs: `check_spot` accepts a row equal to the column
  height, which is an empty spot. Its bit is clear, so it reads exactly as a
  `Zero` piece. `Diagonals.ReadsAs` states this and does not claim the spot
  holds a piece.
- Diagonals.WalkSteps: integer wrap-around of the `uint8` step counters is
  only modelled in `Diagonals.StepAsCalled`. The corrected walk runs only in
  directions whose three steps stay in the grid, so it never wraps.
- Diagonals.CheckDiagsFromEnd: a reported win at a Zero piece may consist of
  empty spots. `check_spot` (line 151) accepts a row equal to the column
  height, and that empty spot reads 0, just like a Zero piece. A test
  `height_int >= height` was likely meant, but the check would then refuse
  the walk instead of reporting no line, and the source gives no sign of what
  it should answer. The model keeps the code's test; the buffer of
  `Diagonals.EmptyTopsWinForZero` exhibits the consequence.
- Diagonals.WinIsDiagonalLine: stated one way, from a reported win to a line.
  The other direction holds only when no earlier direction's walk fails.
  `Diagonals.CheckDiagsFromEndDecides` states the exact condition.

## Findings

| source | as written | input that shows it | evidently intended | confidence | as-written member | corrected member |
|---|---|---|---|---|---|---|
| connect_four.go:159 | the read from `start_byte` overwrites the wrapped read from `start_byte+1` chosen at 155-156 | buffer `[0,128,0,0,0,3,0,0]`, column 1, row 2: the cell is set but reads 0 | read `start_byte+1` when the mask test holds, `start_byte` otherwise | not executed | Board.CheckSpotAsWritten, Board.CheckSpotAsWrittenMisreads | Board.CheckSpot |
| connect_four.go:168 | `height & (1 << (2 - i))` | any nonzero counter, e.g. counter 0 holding 1: read_height returns 0 | `height \| (1 << (2 - i))` | not executed | Board.ReadHeightAsWritten, Board.ReadHeightAsWrittenLosesCounter | Board.ReadHeight |
| connect_four.go:273 | the result of `read_height` is dropped, so `height` stays 0 | a column whose counter holds 5: the move is accepted and the counter becomes 4 | `height = cb.read_height(turn_column)` | not executed | Moves.ApplyTurnIgnoringHeight, Moves.FullColumnAccepted | Moves.ApplyTurn |
| connect_four.go:295-299 | `&` instead of `\|`, and `start_byte` and `start_byte+1` chosen the other way round from 155-156 | buffer `[0,255,0,0,0,0,0,0]`, piece at (0, 0): the result is `[0,128,0,0,0,0,0,0]` and cell (0, 0) stays clear | set the cell's bit in the byte that holds it | not executed | Moves.PlacePieceAsWritten, Moves.PlacePieceAsWrittenMisplaces | Moves.PlacePiece |
| connect_four.go:114 | `HEIGHT_4_BITMASK` starts at byte 7 | counter 4's digits hit HEIGHT_6's last digit, the turn bit, and byte 8 | start byte 6 | not executed | Layout.HeightFieldsAsWritten, Layout.LiteralHeight4Collides | Layout.LayoutPacked |
| connect_four.go:216-235 | the closures take `(height, column)` but are called with `(&col, &height)` | origin (0, 3) with DownRight enabled: its first step goes to column 255 | step column and row in the named direction | not executed | Diagonals.StepAsCalled, Diagonals.SwappedClosuresStepAstray | Diagonals.WalkSteps |
| connect_four.go:231-235 | every slot of `increment_funcs` is called, the nil ones included | buffer `[128,0,0,0,0,10,112,0]`, origin (0, 0): after UpRight finds no line, the nil DownRight slot is called | skip disabled directions | not executed | Diagonals.CheckDiagsCallingNil, Diagonals.NilClosureCalled | Diagonals.CheckDiagsFromEnd |
| connect_four.go:241-248 | a mismatch only continues the inner loop, so only the last step's read decides | buffer `[128,2,4,0,0,10,112,0]`, origin (0, 0): steps 2 and 3 match and step 1 does not, but a win is reported | all three steps must match | not executed | Diagonals.CheckDiagsLastStepOnly, Diagonals.LastStepOnlyMisjudges | Diagonals.CheckDiagsFromEnd |
| connect_four.go:241 | raw masked bytes are compared, and each cell has its own mask, so a One piece never wins | buffer `[129,2,4,0,0,10,112,0]`, origin (0, 0): four One pieces on a diagonal, no win reported | compare occupancy (nonzero) | not executed | Diagonals.CheckDiagsRawValues, Diagonals.RawValuesMissLine, Diagonals.RawValuesNeverMatchOne | Diagonals.CheckDiagsFromEnd |
