/**
 * The diagonal win check from the last piece played: check_spot_distances
 * decides which of the four three-step diagonal walks fit in the grid, and
 * check_diags_from_end walks them, in the order of its increment_funcs table
 * (connect_four.go:177-252).
 */
module Diagonals {
  import opened Layout
  import opened Board
  import opened Decoded

  // ---------------------------------------------------------------------------
  // Directions and the grid

  datatype Direction = UpRight | DownRight | UpLeft | DownLeft

  /** The slots of increment_funcs, in the order the scan tries them. */
  const IncrementOrder: seq<Direction> := [UpRight, DownRight, UpLeft, DownLeft]

  predicate InGrid(c: int, r: int)
  {
    0 <= c < Columns && 0 <= r < Rows
  }

  /** Column of the i-th step from column c in direction d. */
  function StepColumn(c: int, d: Direction, i: int): int
  {
    if d == UpRight || d == DownRight then c + i else c - i
  }

  /** Row of the i-th step from row h in direction d. */
  function StepRow(h: int, d: Direction, i: int): int
  {
    if d == UpRight || d == UpLeft then h + i else h - i
  }

  /** All three steps from (c, h) in direction d stay inside the grid. */
  predicate WalkFits(c: int, h: int, d: Direction)
  {
    forall i :: 1 <= i <= 3 ==> InGrid(StepColumn(c, d, i), StepRow(h, d, i))
  }

  // ---------------------------------------------------------------------------
  // check_spot_distances

  /** The four flags of check_spot_distances, in the order it returns them. */
  datatype Distances = Distances(upRight: bool, downRight: bool, downLeft: bool, upLeft: bool)

  function Enabled(ds: Distances, d: Direction): bool
  {
    match d
    case UpRight => ds.upRight
    case DownRight => ds.downRight
    case UpLeft => ds.upLeft
    case DownLeft => ds.downLeft
  }

  /**
   * check_spot_distances (connect_four.go:177-201): refused above the
   * column's height; otherwise, for an origin inside the grid, a direction's
   * flag is set exactly when its three steps stay inside the grid.
   */
  function CheckSpotDistances(b: Buffer, c: nat, h: nat): (r: Result<Distances>)
    requires c < Columns
    ensures r.Err? <==> ReadHeight(b, c) < h
    ensures r.Err? ==> r.error == SpotOutOfHeight
    ensures r.Ok? && h < Rows ==> forall d :: Enabled(r.value, d) <==> WalkFits(c, h, d)
  {
    if ReadHeight(b, c) < h then Err(SpotOutOfHeight)
    else
      DistanceFlagsFit(c, h);
      Ok(DistanceFlags(c, h))
  }

  /** The flags of connect_four.go:187-196 for origin (c, h). */
  function DistanceFlags(c: nat, h: nat): Distances
  {
    var missesLeft := c >= 3;
    var missesRight := c <= 3;
    var missesFloor := h >= 3;
    var missesCeiling := h <= 2;
    Distances(missesRight && missesCeiling, missesRight && missesFloor,
              missesLeft && missesFloor, missesLeft && missesCeiling)
  }

  lemma DistanceFlagsFit(c: nat, h: nat)
    requires c < Columns
    ensures h < Rows ==> forall d :: Enabled(DistanceFlags(c, h), d) <==> WalkFits(c, h, d)
  {
    if h < Rows {
      forall d
        ensures Enabled(DistanceFlags(c, h), d) <==> WalkFits(c, h, d)
      {
        WalkFitsAtThirdStep(c, h, d);
      }
    }
  }

  /** From inside the grid, a walk fits exactly when its third step is inside the grid. */
  lemma WalkFitsAtThirdStep(c: int, h: int, d: Direction)
    requires InGrid(c, h)
    ensures WalkFits(c, h, d) <==> InGrid(StepColumn(c, d, 3), StepRow(h, d, 3))
  {
    if InGrid(StepColumn(c, d, 3), StepRow(h, d, 3)) {
      forall i | 1 <= i <= 3
        ensures InGrid(StepColumn(c, d, i), StepRow(h, d, i))
      {
      }
    }
  }

  /**
   * No origin enables all four directions: a column cannot miss both edges
   * unless it is column 3, and a row cannot miss both floor and ceiling.
   */
  lemma SomeDirectionDisabled(b: Buffer, c: nat, h: nat)
    requires c < Columns && ReadHeight(b, c) >= h
    ensures exists d :: !Enabled(CheckSpotDistances(b, c, h).value, d)
  {
    var ds := CheckSpotDistances(b, c, h).value;
    if h <= 2 {
      assert !Enabled(ds, DownLeft);
    } else {
      assert !Enabled(ds, UpLeft);
    }
  }

  // ---------------------------------------------------------------------------
  // Walking one direction

  /** Step i lies inside the grid and above its column's height. */
  predicate StepAbove(b: Buffer, c: int, h: int, d: Direction, i: int)
  {
    var sc, sr := StepColumn(c, d, i), StepRow(h, d, i);
    InGrid(sc, sr) && ReadHeight(b, sc as nat) < sr
  }

  /** The cell bit at step i. */
  function StepBit(b: Buffer, c: int, h: int, d: Direction, i: int): bool
    requires InGrid(StepColumn(c, d, i), StepRow(h, d, i))
  {
    CellBit(b, StepColumn(c, d, i) as nat, StepRow(h, d, i) as nat)
  }

  /** The mask of the cell at step i in its column table. */
  function StepMask(c: int, h: int, d: Direction, i: int): bv8
    requires InGrid(StepColumn(c, d, i), StepRow(h, d, i))
  {
    ColumnFields[StepColumn(c, d, i)].masks[StepRow(h, d, i)]
  }

  /**
   * The inner loop of check_diags_from_end (connect_four.go:233-244) for its
   * first n steps: check_spot at each step, in order, stopping at the first
   * error. It fails exactly when some step lies above its column's height,
   * and otherwise reads, step by step, a value that is nonzero exactly when
   * the step's cell bit is set.
   */
  function WalkSteps(b: Buffer, c: nat, h: nat, d: Direction, n: nat): (r: Result<seq<bv8>>)
    requires c < Columns && h < Rows && WalkFits(c, h, d) && n <= 3
    ensures r.Err? <==> exists i :: 1 <= i <= n && StepAbove(b, c, h, d, i)
    ensures r.Err? ==> r.error == WalkFailed(SpotAboveHeight)
    ensures r.Ok? ==> |r.value| == n && forall i :: 0 <= i < n ==> ReadsStep(b, c, h, d, i + 1, r.value[i])
    decreases n
  {
    if n == 0 then Ok([])
    else
      var prefix := WalkSteps(b, c, h, d, n - 1);
      if prefix.Err? then prefix
      else
        assert InGrid(StepColumn(c, d, n), StepRow(h, d, n));
        var read := CheckSpot(b, StepColumn(c, d, n) as nat, StepRow(h, d, n) as nat);
        StepRead(b, c, h, d, n);
        if read.Err? then Err(WalkFailed(read.error))
        else
          var seen := prefix.value + [read.value];
          WalkExtends(b, c, h, d, n, prefix.value, read.value);
          Ok(seen)
  }

  /** A clean walk of n - 1 steps followed by a clean read at step n is a clean walk of n steps. */
  lemma WalkExtends(b: Buffer, c: nat, h: nat, d: Direction, n: nat, prefix: seq<bv8>, v: bv8)
    requires c < Columns && h < Rows && WalkFits(c, h, d) && 1 <= n <= 3
    requires !exists i :: 1 <= i <= n - 1 && StepAbove(b, c, h, d, i)
    requires |prefix| == n - 1 && forall i :: 0 <= i < n - 1 ==> ReadsStep(b, c, h, d, i + 1, prefix[i])
    requires !StepAbove(b, c, h, d, n) && ReadsStep(b, c, h, d, n, v)
    ensures !exists i :: 1 <= i <= n && StepAbove(b, c, h, d, i)
    ensures forall i :: 0 <= i < n ==> ReadsStep(b, c, h, d, i + 1, (prefix + [v])[i])
  {
    var seen := prefix + [v];
    forall i | 1 <= i <= n
      ensures !StepAbove(b, c, h, d, i)
    {
      if i < n {
        assert !(1 <= i <= n - 1 && StepAbove(b, c, h, d, i));
      }
    }
    forall i | 0 <= i < n
      ensures ReadsStep(b, c, h, d, i + 1, seen[i])
    {
      if i < n - 1 {
        assert seen[i] == prefix[i];
      }
    }
  }

  /**
   * v is what check_spot reads at step i: nonzero exactly when the step's
   * cell bit is set, and then the step's mask.
   */
  predicate ReadsStep(b: Buffer, c: int, h: int, d: Direction, i: int, v: bv8)
    requires InGrid(StepColumn(c, d, i), StepRow(h, d, i))
  {
    && (v != 0 <==> StepBit(b, c, h, d, i))
    && (v == 0 || v == StepMask(c, h, d, i))
  }

  /** check_spot at step n fails exactly when the step lies above its column's height, and reads its cell bit otherwise. */
  lemma StepRead(b: Buffer, c: int, h: int, d: Direction, n: int)
    requires InGrid(StepColumn(c, d, n), StepRow(h, d, n))
    ensures var read := CheckSpot(b, StepColumn(c, d, n) as nat, StepRow(h, d, n) as nat);
            && (read.Err? <==> StepAbove(b, c, h, d, n))
            && (read.Ok? ==> ReadsStep(b, c, h, d, n, read.value))
  {
  }

  // ---------------------------------------------------------------------------
  // The scan

  /**
   * How a walk's three reads are compared with the origin's read: every step
   * by occupancy (the corrected rule), the last step only (lines 241-248 as
   * written), or every step by raw masked value (the `!=` of line 241 as
   * written).
   */
  datatype Rule = EveryStep | LastStepOnly | RawValues

  predicate Matches(rule: Rule, seen: seq<bv8>, win: bv8)
    requires |seen| == 3
  {
    match rule
    case EveryStep => (seen[0] != 0) == (win != 0) && (seen[1] != 0) == (win != 0) && (seen[2] != 0) == (win != 0)
    case LastStepOnly => (seen[2] != 0) == (win != 0)
    case RawValues => seen[0] == win && seen[1] == win && seen[2] == win
  }

  /** The outer loop of check_diags_from_end from slot j on, disabled slots skipped. */
  function ScanFrom(b: Buffer, c: nat, h: nat, win: bv8, ds: Distances, rule: Rule, j: nat): (r: Result<bool>)
    requires c < Columns && h < Rows && j <= |IncrementOrder|
    requires forall d :: Enabled(ds, d) ==> WalkFits(c, h, d)
    ensures r.Err? ==> r.error == WalkFailed(SpotAboveHeight)
    decreases |IncrementOrder| - j
  {
    if j == |IncrementOrder| then Ok(false)
    else
      var d := IncrementOrder[j];
      if !Enabled(ds, d) then ScanFrom(b, c, h, win, ds, rule, j + 1)
      else
        var walk := WalkSteps(b, c, h, d, 3);
        if walk.Err? then Err(walk.error)
        else if Matches(rule, walk.value, win) then Ok(true)
        else ScanFrom(b, c, h, win, ds, rule, j + 1)
  }

  /** check_diags_from_end under a comparison rule (connect_four.go:203-252). */
  function ScanWith(b: Buffer, c: nat, h: nat, rule: Rule): Result<bool>
    requires c < Columns && (ReadHeight(b, c) < h || h < Rows)
  {
    match CheckSpot(b, c, h)
    case Err(e) => Err(e)
    case Ok(win) => ScanFrom(b, c, h, win, CheckSpotDistances(b, c, h).value, rule, 0)
  }

  /**
   * check_diags_from_end with the slips of lines 216-252 corrected: each
   * enabled direction walks its own way, disabled ones are skipped, and all
   * three steps are compared with the origin by occupancy.
   */
  function CheckDiagsFromEnd(b: Buffer, c: nat, h: nat): (r: Result<bool>)
    requires c < Columns && (ReadHeight(b, c) < h || h < Rows)
    ensures r.Err? ==> r.error == SpotAboveHeight || r.error == WalkFailed(SpotAboveHeight)
    ensures ReadHeight(b, c) < h <==> r == Err(SpotAboveHeight)
  {
    ScanWith(b, c, h, EveryStep)
  }

  // ---------------------------------------------------------------------------
  // A declarative reading of the scan

  /** What one direction contributes to the scan. */
  datatype Verdict = Skipped | Failed | Line | NoLine

  /**
   * A direction whose walk does not fit is skipped; one with a step above its
   * column's height fails; otherwise it is a line when every step's cell bit
   * equals the origin's.
   */
  function VerdictOf(b: Buffer, c: nat, h: nat, d: Direction): Verdict
    requires c < Columns && h < Rows
  {
    if !WalkFits(c, h, d) then Skipped
    else if exists i :: 1 <= i <= 3 && StepAbove(b, c, h, d, i) then Failed
    else if forall i :: 1 <= i <= 3 ==> StepBit(b, c, h, d, i) == CellBit(b, c, h) then Line
    else NoLine
  }

  function Verdicts(b: Buffer, c: nat, h: nat): (vs: seq<Verdict>)
    requires c < Columns && h < Rows
    ensures |vs| == |IncrementOrder|
    ensures forall j :: 0 <= j < |vs| ==> vs[j] == VerdictOf(b, c, h, IncrementOrder[j])
  {
    [VerdictOf(b, c, h, UpRight), VerdictOf(b, c, h, DownRight), VerdictOf(b, c, h, UpLeft), VerdictOf(b, c, h, DownLeft)]
  }

  /**
   * The first verdict that is a failure or a line decides; with none, there
   * is no win. A win is reported exactly when some line comes before every
   * failure.
   */
  function Decide(vs: seq<Verdict>): (r: Result<bool>)
    ensures r == Ok(false) <==> forall j :: 0 <= j < |vs| ==> vs[j] == Skipped || vs[j] == NoLine
    ensures r.Err? ==> r.error == WalkFailed(SpotAboveHeight) && exists j :: 0 <= j < |vs| && vs[j] == Failed
    ensures r == Ok(true) <==> exists j :: 0 <= j < |vs| && LineBeforeFailure(vs, j)
  {
    if vs == [] then Ok(false)
    else if vs[0] == Failed then Err(WalkFailed(SpotAboveHeight))
    else if vs[0] == Line then
      assert LineBeforeFailure(vs, 0);
      Ok(true)
    else
      DecideShift(vs);
      Decide(vs[1..])
  }

  /** Verdict j is a line and no verdict before it is a failure. */
  predicate LineBeforeFailure(vs: seq<Verdict>, j: nat)
    requires j < |vs|
  {
    vs[j] == Line && forall j' :: 0 <= j' < j ==> vs[j'] != Failed
  }

  /** A leading verdict that neither fails nor is a line can be dropped. */
  lemma DecideShift(vs: seq<Verdict>)
    requires |vs| > 0 && vs[0] != Failed && vs[0] != Line
    ensures (exists j :: 0 <= j < |vs| && LineBeforeFailure(vs, j)) <==> (exists j :: 0 <= j < |vs[1..]| && LineBeforeFailure(vs[1..], j))
    ensures (exists j :: 0 <= j < |vs| && vs[j] == Failed) <==> (exists j :: 0 <= j < |vs[1..]| && vs[1..][j] == Failed)
    ensures (forall j :: 0 <= j < |vs| ==> vs[j] == Skipped || vs[j] == NoLine) <==>
            (forall j :: 0 <= j < |vs[1..]| ==> vs[1..][j] == Skipped || vs[1..][j] == NoLine)
  {
    var t := vs[1..];
    if exists j :: 0 <= j < |t| && LineBeforeFailure(t, j) {
      var j :| 0 <= j < |t| && LineBeforeFailure(t, j);
      assert LineBeforeFailure(vs, j + 1);
    }
    if exists j :: 0 <= j < |vs| && LineBeforeFailure(vs, j) {
      var j :| 0 <= j < |vs| && LineBeforeFailure(vs, j);
      assert j > 0 && LineBeforeFailure(t, j - 1);
    }
    if exists j :: 0 <= j < |t| && t[j] == Failed {
      var j :| 0 <= j < |t| && t[j] == Failed;
      assert vs[j + 1] == Failed;
    }
    if forall j :: 0 <= j < |t| ==> t[j] == Skipped || t[j] == NoLine {
      forall j | 0 <= j < |vs|
        ensures vs[j] == Skipped || vs[j] == NoLine
      {
        if j > 0 {
          assert vs[j] == t[j - 1];
        }
      }
    }
  }

  /** Walking direction d fails exactly when its verdict is a failure. */
  lemma WalkFailsOnFailedVerdict(b: Buffer, c: nat, h: nat, d: Direction)
    requires c < Columns && h < Rows && WalkFits(c, h, d)
    ensures VerdictOf(b, c, h, d) == Failed <==> WalkSteps(b, c, h, d, 3).Err?
  {
  }

  /** A completed walk matches by occupancy exactly when its verdict is a line. */
  lemma WalkMatchesOnLine(b: Buffer, c: nat, h: nat, win: bv8, d: Direction)
    requires c < Columns && h < Rows && WalkFits(c, h, d)
    requires win != 0 <==> CellBit(b, c, h)
    ensures WalkSteps(b, c, h, d, 3).Ok? ==>
              (VerdictOf(b, c, h, d) == Line <==> Matches(EveryStep, WalkSteps(b, c, h, d, 3).value, win))
  {
    var walk := WalkSteps(b, c, h, d, 3);
    if walk.Ok? {
      var seen := walk.value;
      assert ReadsStep(b, c, h, d, 1, seen[0]) && ReadsStep(b, c, h, d, 2, seen[1]) && ReadsStep(b, c, h, d, 3, seen[2]);
      ReadsMatchOnLine(b, c, h, win, d, seen);
    }
  }

  /** Three clean reads match the origin by occupancy exactly when the verdict is a line. */
  lemma ReadsMatchOnLine(b: Buffer, c: nat, h: nat, win: bv8, d: Direction, seen: seq<bv8>)
    requires c < Columns && h < Rows && WalkFits(c, h, d)
    requires win != 0 <==> CellBit(b, c, h)
    requires !exists i :: 1 <= i <= 3 && StepAbove(b, c, h, d, i)
    requires |seen| == 3
    requires ReadsStep(b, c, h, d, 1, seen[0]) && ReadsStep(b, c, h, d, 2, seen[1]) && ReadsStep(b, c, h, d, 3, seen[2])
    ensures VerdictOf(b, c, h, d) == Line <==> Matches(EveryStep, seen, win)
  {
    var x := CellBit(b, c, h);
    var s1, s2, s3 := StepBit(b, c, h, d, 1), StepBit(b, c, h, d, 2), StepBit(b, c, h, d, 3);
    assert Matches(EveryStep, seen, win) <==> s1 == x && s2 == x && s3 == x;
    AllThreeSteps(b, c, h, d);
  }

  /** A property of every step is a property of steps 1, 2 and 3. */
  lemma AllThreeSteps(b: Buffer, c: nat, h: nat, d: Direction)
    requires c < Columns && h < Rows && WalkFits(c, h, d)
    ensures (forall i :: 1 <= i <= 3 ==> StepBit(b, c, h, d, i) == CellBit(b, c, h)) <==>
            (StepBit(b, c, h, d, 1) == CellBit(b, c, h) && StepBit(b, c, h, d, 2) == CellBit(b, c, h) && StepBit(b, c, h, d, 3) == CellBit(b, c, h))
  {
    if StepBit(b, c, h, d, 1) == CellBit(b, c, h) && StepBit(b, c, h, d, 2) == CellBit(b, c, h) && StepBit(b, c, h, d, 3) == CellBit(b, c, h) {
      forall i | 1 <= i <= 3
        ensures StepBit(b, c, h, d, i) == CellBit(b, c, h)
      {
        if i == 1 {} else if i == 2 {} else {}
      }
    }
  }

  /** The scan from slot j decides the remaining verdicts. */
  lemma {:induction false} ScanAgreesWithVerdicts(b: Buffer, c: nat, h: nat, j: nat)
    requires c < Columns && h < Rows && ReadHeight(b, c) >= h && j <= |IncrementOrder|
    ensures var win := CheckSpot(b, c, h).value;
            ScanFrom(b, c, h, win, CheckSpotDistances(b, c, h).value, EveryStep, j) == Decide(Verdicts(b, c, h)[j..])
    decreases |IncrementOrder| - j
  {
    var win := CheckSpot(b, c, h).value;
    var ds := CheckSpotDistances(b, c, h).value;
    var vs := Verdicts(b, c, h);
    if j < |IncrementOrder| {
      var d := IncrementOrder[j];
      assert vs[j..][0] == VerdictOf(b, c, h, d);
      assert vs[j..][1..] == vs[j + 1..];
      ScanAgreesWithVerdicts(b, c, h, j + 1);
      if Enabled(ds, d) {
        WalkFailsOnFailedVerdict(b, c, h, d);
        if WalkSteps(b, c, h, d, 3).Ok? {
          WalkMatchesOnLine(b, c, h, win, d);
        }
      }
    }
  }

  /**
   * check_diags_from_end decides the directions in increment_funcs order:
   * it fails on an origin above the column's height, and otherwise reports
   * the first direction that is a line or fails, or no win.
   */
  lemma CheckDiagsFromEndDecides(b: Buffer, c: nat, h: nat)
    requires c < Columns && h < Rows
    ensures CheckDiagsFromEnd(b, c, h) == if ReadHeight(b, c) < h then Err(SpotAboveHeight) else Decide(Verdicts(b, c, h))
  {
    if ReadHeight(b, c) >= h {
      ScanAgreesWithVerdicts(b, c, h, 0);
      assert Verdicts(b, c, h)[0..] == Verdicts(b, c, h);
    }
  }

  // ---------------------------------------------------------------------------
  // The scan on the decoded position

  /**
   * How check_spot's occupancy test sees cell (c, r) of a position: a piece
   * of `player`, or, for Zero, the empty spot right on top of the column,
   * which check_spot accepts and reads as 0.
   */
  predicate ReadsAs(p: Position, c: int, r: int, player: Player)
    requires ValidPosition(p) && InGrid(c, r)
  {
    var col := p.columns[c];
    (r < |col| && col[r] == player) || (player == Zero && r == |col|)
  }

  /** A cell at or below the height of a well-formed buffer's column reads as its decoded piece. */
  lemma CellReadsAs(b: Buffer, c: nat, r: nat)
    requires WellFormed(b) && c < Columns && r < Rows && r <= ReadHeight(b, c)
    ensures ReadsAs(Decode(b), c, r, PlayerOf(CellBit(b, c, r)))
  {
    var p := Decode(b);
    assert p.columns[c] == DecodeColumn(b, c);
  }

  /**
   * A win reported from a piece of a well-formed buffer is a diagonal: some
   * direction fits in the grid, and each of its three steps reads as a piece
   * of the origin's player (for Zero, possibly the empty spot on top of a
   * column).
   */
  lemma WinIsDiagonalLine(b: Buffer, c: nat, h: nat)
    requires WellFormed(b) && c < Columns && h < ReadHeight(b, c)
    ensures h < |Decode(b).columns[c]|
    ensures CheckDiagsFromEnd(b, c, h) == Ok(true) ==>
              exists d :: WalkFits(c, h, d) && forall i :: 1 <= i <= 3 ==>
                ReadsAs(Decode(b), StepColumn(c, d, i), StepRow(h, d, i), Decode(b).columns[c][h])
  {
    var p := Decode(b);
    assert p.columns[c] == DecodeColumn(b, c);
    if CheckDiagsFromEnd(b, c, h) == Ok(true) {
      var player := p.columns[c][h];
      assert player == PlayerOf(CellBit(b, c, h));
      CheckDiagsFromEndDecides(b, c, h);
      var vs := Verdicts(b, c, h);
      var j :| 0 <= j < |vs| && LineBeforeFailure(vs, j);
      var d := IncrementOrder[j];
      assert VerdictOf(b, c, h, d) == Line;
      forall i | 1 <= i <= 3
        ensures ReadsAs(p, StepColumn(c, d, i), StepRow(h, d, i), player)
      {
        var sc, sr := StepColumn(c, d, i), StepRow(h, d, i);
        assert !StepAbove(b, c, h, d, i);
        assert StepBit(b, c, h, d, i) == CellBit(b, c, h);
        CellReadsAs(b, sc as nat, sr as nat);
      }
    }
  }

  // ---------------------------------------------------------------------------
  // The slips of lines 216-248, each in isolation

  /**
   * The closure for direction d as line 235 calls it: the closures take
   * (height, column) but receive (&working_col_ind, &working_height_ind),
   * so the column moves by the closure's row step and the row by its column
   * step, in uint8 arithmetic.
   */
  function StepAsCalled(d: Direction, col: bv8, height: bv8): (bv8, bv8)
  {
    match d
    case UpRight => (col + 1, height + 1)
    case DownRight => (col - 1, height + 1)
    case UpLeft => (col + 1, height - 1)
    case DownLeft => (col - 1, height - 1)
  }

  /**
   * The swapped arguments turn DownRight into up-left and UpLeft into
   * down-right. From (0, 3), where DownRight is enabled, the first called
   * step asks for column 255, past the seven column tables.
   */
  lemma SwappedClosuresStepAstray(b: Buffer)
    requires ReadHeight(b, 0) >= 3
    ensures forall col: bv8, height: bv8 :: StepAsCalled(DownRight, col, height) == (col - 1, height + 1)
    ensures Enabled(CheckSpotDistances(b, 0, 3).value, DownRight)
    ensures StepColumn(0, DownRight, 1) == 1 && StepAsCalled(DownRight, 0, 3).0 == 255
  {
  }

  /** A slot of increment_funcs: nil, or the closure for a direction. */
  datatype Closure = Nil | Inc(direction: Direction)

  /** increment_funcs as connect_four.go:214-226 fills it. */
  function Closures(ds: Distances): (fs: seq<Closure>)
    ensures |fs| == |IncrementOrder|
    ensures forall j :: 0 <= j < |fs| ==> (fs[j] == Nil <==> !Enabled(ds, IncrementOrder[j]))
  {
    [if ds.upRight then Inc(UpRight) else Nil, if ds.downRight then Inc(DownRight) else Nil,
     if ds.upLeft then Inc(UpLeft) else Nil, if ds.downLeft then Inc(DownLeft) else Nil]
  }

  /** How the as-written loop ends: with a result, or by calling a nil closure. */
  datatype Outcome = Returned(result: Result<bool>) | NilCall

  /** The outer loop as written at lines 231-235: every slot is called, nil or not. */
  function ScanCallingNil(b: Buffer, c: nat, h: nat, win: bv8, ds: Distances, j: nat): Outcome
    requires c < Columns && h < Rows && j <= |IncrementOrder|
    requires forall d :: Enabled(ds, d) ==> WalkFits(c, h, d)
    decreases |IncrementOrder| - j
  {
    if j == |IncrementOrder| then Returned(Ok(false))
    else
      match Closures(ds)[j]
      case Nil => NilCall
      case Inc(d) =>
        var walk := WalkSteps(b, c, h, d, 3);
        if walk.Err? then Returned(Err(walk.error))
        else if Matches(EveryStep, walk.value, win) then Returned(Ok(true))
        else ScanCallingNil(b, c, h, win, ds, j + 1)
  }

  /** check_diags_from_end with the nil slots of increment_funcs called (the other slips corrected). */
  function CheckDiagsCallingNil(b: Buffer, c: nat, h: nat): Outcome
    requires c < Columns && (ReadHeight(b, c) < h || h < Rows)
  {
    match CheckSpot(b, c, h)
    case Err(e) => Returned(Err(e))
    case Ok(win) => ScanCallingNil(b, c, h, win, CheckSpotDistances(b, c, h).value, 0)
  }

  // Three sample boards share their counters: columns 0 to 3 hold 1, 2, 3
  // and 4 pieces (bytes 5 and 6 are 10 and 112), and the origin (0, 0) holds
  // a One piece.

  lemma SampleHeights(b: Buffer)
    requires b[5] == 10 && b[6] == 112
    ensures ReadHeight(b, 0) == 1 && ReadHeight(b, 1) == 2 && ReadHeight(b, 2) == 3 && ReadHeight(b, 3) == 4
  {
    SampleHeight(b, 0);
    SampleHeight(b, 1);
    SampleHeight(b, 2);
    SampleHeight(b, 3);
  }

  lemma SampleHeight(b: Buffer, c: nat)
    requires b[5] == 10 && b[6] == 112 && c < 4
    ensures ReadHeight(b, c) == c + 1
  {
    if c == 0 {
      assert !Bit(b, 42) && !Bit(b, 43) && Bit(b, 44);
    } else if c == 1 {
      assert !Bit(b, 45) && Bit(b, 46) && !Bit(b, 47);
    } else if c == 2 {
      assert !Bit(b, 48) && Bit(b, 49) && Bit(b, 50);
    } else {
      assert Bit(b, 51) && !Bit(b, 52) && !Bit(b, 53);
    }
  }

  /** Columns 1, 2 and 3 are tall enough for the up-right walk from (0, 0) to read every step. */
  predicate CornerWalkable(b: Buffer)
  {
    ReadHeight(b, 1) >= 1 && ReadHeight(b, 2) >= 2 && ReadHeight(b, 3) >= 3
  }

  /**
   * From (0, 0) on a sample board, the up-right walk reads every step: cells
   * 7, 14 and 21, whose masks are 1, 2 and 4.
   */
  lemma SampleWalk(b: Buffer)
    requires CornerWalkable(b)
    ensures WalkSteps(b, 0, 0, UpRight, 3).Ok?
    ensures var seen := WalkSteps(b, 0, 0, UpRight, 3).value;
            && (seen[0] != 0 <==> b[0] & 1 != 0) && (seen[0] == 0 || seen[0] == 1)
            && (seen[1] != 0 <==> b[1] & 2 != 0) && (seen[2] != 0 <==> b[2] & 4 != 0)
  {
    assert WalkFits(0, 0, UpRight);
    forall i | 1 <= i <= 3
      ensures !StepAbove(b, 0, 0, UpRight, i)
    {
      if i == 1 {} else if i == 2 {} else {}
    }
    var seen := WalkSteps(b, 0, 0, UpRight, 3).value;
    assert ReadsStep(b, 0, 0, UpRight, 1, seen[0]) && ReadsStep(b, 0, 0, UpRight, 2, seen[1]) && ReadsStep(b, 0, 0, UpRight, 3, seen[2]);
    CornerDiagonalBits(b);
    assert StepMask(0, 0, UpRight, 1) == 1;
  }

  /** The cells of the up-right diagonal from (0, 0) are bits 0, 7, 14 and 21. */
  lemma CornerDiagonalBits(b: Buffer)
    ensures CellBit(b, 0, 0) == (b[0] & 128 != 0)
    ensures StepBit(b, 0, 0, UpRight, 1) == (b[0] & 1 != 0)
    ensures StepBit(b, 0, 0, UpRight, 2) == (b[1] & 2 != 0)
    ensures StepBit(b, 0, 0, UpRight, 3) == (b[2] & 4 != 0)
  {
    assert CellIndex(1, 1) == 7 && CellIndex(2, 2) == 14 && CellIndex(3, 3) == 21;
  }

  /** On a sample board the origin (0, 0) holds 128 and only its up-right slot is enabled. */
  lemma SampleOrigin(b: Buffer)
    requires b[5] == 10 && b[6] == 112 && b[0] & 128 != 0
    ensures CheckSpot(b, 0, 0) == Ok(128)
    ensures CheckSpotDistances(b, 0, 0) == Ok(Distances(true, false, false, false))
  {
    SampleHeight(b, 0);
    CornerDiagonalBits(b);
  }

  /** From (0, 0) on a sample board the up-right walk decides the scan. */
  lemma SampleScan(b: Buffer, rule: Rule)
    requires b[5] == 10 && b[6] == 112 && b[0] & 128 != 0
    ensures WalkSteps(b, 0, 0, UpRight, 3).Ok?
    ensures ScanWith(b, 0, 0, rule) == Ok(Matches(rule, WalkSteps(b, 0, 0, UpRight, 3).value, 128))
  {
    SampleOrigin(b);
    SampleHeights(b);
    SampleWalk(b);
    var ds := Distances(true, false, false, false);
    assert ScanFrom(b, 0, 0, 128, ds, rule, 1) == Ok(false) by {
      assert ScanFrom(b, 0, 0, 128, ds, rule, 3) == Ok(false);
      assert ScanFrom(b, 0, 0, 128, ds, rule, 2) == Ok(false);
    }
  }

  /** What each rule makes of the sample walk, in terms of the three diagonal bits. */
  lemma SampleMatches(b: Buffer, rule: Rule)
    requires b[5] == 10 && b[6] == 112
    ensures WalkSteps(b, 0, 0, UpRight, 3).Ok?
    ensures Matches(rule, WalkSteps(b, 0, 0, UpRight, 3).value, 128) <==>
            match rule
            case EveryStep => b[0] & 1 != 0 && b[1] & 2 != 0 && b[2] & 4 != 0
            case LastStepOnly => b[2] & 4 != 0
            case RawValues => false
  {
    SampleHeights(b);
    SampleWalk(b);
  }

  /**
   * A One piece at (0, 0) under Zero pieces at (1, 1), (2, 2), (3, 3): the
   * corrected scan finds no line, while the as-written loop goes on to the
   * nil DownRight slot.
   */
  lemma NilClosureCalled()
    ensures CheckDiagsFromEnd([128, 0, 0, 0, 0, 10, 112, 0], 0, 0) == Ok(false)
    ensures CheckDiagsCallingNil([128, 0, 0, 0, 0, 10, 112, 0], 0, 0) == NilCall
  {
    var b: Buffer := [128, 0, 0, 0, 0, 10, 112, 0];
    SampleOrigin(b);
    SampleScan(b, EveryStep);
    SampleMatches(b, EveryStep);
    assert ScanCallingNil(b, 0, 0, 128, Distances(true, false, false, false), 1) == NilCall;
  }

  /** check_diags_from_end comparing only the last step (lines 241-248 as written, the other slips corrected). */
  function CheckDiagsLastStepOnly(b: Buffer, c: nat, h: nat): Result<bool>
    requires c < Columns && (ReadHeight(b, c) < h || h < Rows)
  {
    ScanWith(b, c, h, LastStepOnly)
  }

  /**
   * One pieces at (0, 0), (2, 2), (3, 3) and a Zero piece at (1, 1): no line,
   * but the last step alone matches.
   */
  lemma LastStepOnlyMisjudges()
    ensures CheckDiagsFromEnd([128, 2, 4, 0, 0, 10, 112, 0], 0, 0) == Ok(false)
    ensures CheckDiagsLastStepOnly([128, 2, 4, 0, 0, 10, 112, 0], 0, 0) == Ok(true)
  {
    var b: Buffer := [128, 2, 4, 0, 0, 10, 112, 0];
    assert CheckDiagsFromEnd(b, 0, 0) == Ok(false) by {
      SampleScan(b, EveryStep);
      SampleMatches(b, EveryStep);
    }
    assert CheckDiagsLastStepOnly(b, 0, 0) == Ok(true) by {
      SampleScan(b, LastStepOnly);
      SampleMatches(b, LastStepOnly);
    }
  }

  /** check_diags_from_end comparing raw masked bytes at every step (line 241 as written, the other slips corrected). */
  function CheckDiagsRawValues(b: Buffer, c: nat, h: nat): Result<bool>
    requires c < Columns && (ReadHeight(b, c) < h || h < Rows)
  {
    ScanWith(b, c, h, RawValues)
  }

  /**
   * The first step of a diagonal is 5 or 7 bits away from its origin, never a
   * multiple of 8, so its mask differs from the origin's.
   */
  lemma StepMaskDiffers(c: nat, h: nat, d: Direction)
    requires c < Columns && h < Rows && InGrid(StepColumn(c, d, 1), StepRow(h, d, 1))
    ensures StepMask(c, h, d, 1) != ColumnFields[c].masks[h]
  {
    var sc, sr := StepColumn(c, d, 1) as nat, StepRow(h, d, 1) as nat;
    var k, k' := CellIndex(c, h), CellIndex(sc, sr);
    assert k' % 8 != k % 8 by {
      assert k' == k + 7 || k' == k + 5 || k' + 5 == k || k' + 7 == k;
    }
    CellMask(c, h);
    CellMask(sc, sr);
    MaskInjective(k % 8, k' % 8);
  }

  /** The mask of cell (c, r) in its column table is the mask of bit 6c+r; it is never 0. */
  lemma CellMask(c: nat, r: nat)
    requires c < Columns && r < Rows
    ensures ColumnFields[c].masks[r] == Mask(CellIndex(c, r) % 8) && ColumnFields[c].masks[r] != 0
  {
    ColumnLayout(c, r);
  }

  /** From slot j on, a raw scan from a One origin (win is the origin's mask) never reports a win. */
  lemma {:induction false} RawScanNeverWins(b: Buffer, c: nat, h: nat, ds: Distances, j: nat)
    requires c < Columns && h < Rows && j <= |IncrementOrder|
    requires forall d :: Enabled(ds, d) ==> WalkFits(c, h, d)
    ensures ScanFrom(b, c, h, ColumnFields[c].masks[h], ds, RawValues, j) != Ok(true)
    decreases |IncrementOrder| - j
  {
    if j < |IncrementOrder| {
      var d := IncrementOrder[j];
      if Enabled(ds, d) {
        var walk := WalkSteps(b, c, h, d, 3);
        if walk.Ok? {
          assert ReadsStep(b, c, h, d, 1, walk.value[0]);
          StepMaskDiffers(c, h, d);
          CellMask(c, h);
        }
      }
      RawScanNeverWins(b, c, h, ds, j + 1);
    }
  }

  /**
   * Comparing raw masked bytes never reports a win from a One piece, whatever
   * the board: every step's read carries its own cell's mask.
   */
  lemma RawValuesNeverMatchOne(b: Buffer, c: nat, h: nat)
    requires c < Columns && h < Rows
    ensures CellBit(b, c, h) ==> CheckDiagsRawValues(b, c, h) != Ok(true)
  {
    if CellBit(b, c, h) && h <= ReadHeight(b, c) {
      var win := CheckSpot(b, c, h).value;
      CellMask(c, h);
      assert win == ColumnFields[c].masks[h];
      RawScanNeverWins(b, c, h, CheckSpotDistances(b, c, h).value, 0);
    }
  }

  /**
   * A One line (0, 0), (1, 1), (2, 2), (3, 3): the corrected scan reports the
   * win, but check_spot's reads carry each cell's own mask (128, 1, 2, 4), so
   * raw comparison never matches.
   */
  lemma RawValuesMissLine()
    ensures CheckDiagsFromEnd([129, 2, 4, 0, 0, 10, 112, 0], 0, 0) == Ok(true)
    ensures CheckDiagsRawValues([129, 2, 4, 0, 0, 10, 112, 0], 0, 0) == Ok(false)
  {
    var b: Buffer := [129, 2, 4, 0, 0, 10, 112, 0];
    assert b[0] & 128 != 0 && b[0] & 1 != 0 && b[1] & 2 != 0 && b[2] & 4 != 0;
    SampleLineMissed(b);
  }

  /** A sample board with the four up-right cells from (0, 0) set: a line, which raw comparison misses. */
  lemma SampleLineMissed(b: Buffer)
    requires b[5] == 10 && b[6] == 112
    requires b[0] & 128 != 0 && b[0] & 1 != 0 && b[1] & 2 != 0 && b[2] & 4 != 0
    ensures CheckDiagsFromEnd(b, 0, 0) == Ok(true)
    ensures CheckDiagsRawValues(b, 0, 0) == Ok(false)
  {
    assert CheckDiagsFromEnd(b, 0, 0) == Ok(true) by {
      SampleScan(b, EveryStep);
      SampleMatches(b, EveryStep);
    }
    assert CheckDiagsRawValues(b, 0, 0) == Ok(false) by {
      SampleScan(b, RawValues);
      SampleMatches(b, RawValues);
    }
  }

  // A single Zero piece at (0, 0) with columns 1, 2 and 3 holding 1, 2 and 3
  // pieces (bytes 5, 6 and 7 are 9, 76 and 0) and no One piece anywhere: the
  // spots (1, 1), (2, 2) and (3, 3) are the empty tops of their columns.

  /** The counters of the empty-tops board: 1, 1, 2, 3, 0, 0, 0. */
  lemma TopsHeight(b: Buffer, c: nat)
    requires b[5] == 9 && b[6] == 76 && b[7] == 0 && c < Columns
    ensures ReadHeight(b, c) == [1, 1, 2, 3, 0, 0, 0][c]
  {
    if c == 0 {
      assert !Bit(b, 42) && !Bit(b, 43) && Bit(b, 44);
    } else if c == 1 {
      assert !Bit(b, 45) && !Bit(b, 46) && Bit(b, 47);
    } else if c == 2 {
      assert !Bit(b, 48) && Bit(b, 49) && !Bit(b, 50);
    } else if c == 3 {
      assert !Bit(b, 51) && Bit(b, 52) && Bit(b, 53);
    } else if c == 4 {
      assert !Bit(b, 54) && !Bit(b, 55) && !Bit(b, 56);
    } else if c == 5 {
      assert !Bit(b, 57) && !Bit(b, 58) && !Bit(b, 59);
    } else {
      assert !Bit(b, 60) && !Bit(b, 61) && !Bit(b, 62);
    }
  }

  /** With bytes 0 to 4 clear and the two cell bits of byte 5 clear, no cell is set. */
  lemma NoCellSet(b: Buffer, c: nat, r: nat)
    requires b[0] == 0 && b[1] == 0 && b[2] == 0 && b[3] == 0 && b[4] == 0 && b[5] & 192 == 0
    requires c < Columns && r < Rows
    ensures !CellBit(b, c, r)
  {
    var k := CellIndex(c, r);
    if k / 8 == 5 {
      assert k % 8 < 2;
      assert Mask(k % 8) & 192 == Mask(k % 8);
    }
  }

  /** The empty-tops board, byte by byte. */
  predicate EmptyTops(b: Buffer)
  {
    b[0] == 0 && b[1] == 0 && b[2] == 0 && b[3] == 0 && b[4] == 0 && b[5] == 9 && b[6] == 76 && b[7] == 0
  }

  /** The empty-tops board is well formed: its counters are small and it has no cell set at all. */
  lemma EmptyTopsWellFormed(b: Buffer)
    requires EmptyTops(b)
    ensures WellFormed(b)
  {
    forall c | 0 <= c < Columns
      ensures ReadHeight(b, c) <= MaxHeight
      ensures forall r :: ReadHeight(b, c) <= r < Rows ==> !CellBit(b, c, r)
    {
      TopsHeight(b, c);
      forall r | ReadHeight(b, c) <= r < Rows
        ensures !CellBit(b, c, r)
      {
        NoCellSet(b, c, r);
      }
    }
  }

  /** It decodes to a lone Zero piece in column 0 and columns 1, 2 and 3 of heights 1, 2 and 3. */
  lemma EmptyTopsBoard(b: Buffer)
    requires EmptyTops(b)
    ensures WellFormed(b)
    ensures CornerWalkable(b)
    ensures Decode(b).columns[0] == [Zero]
    ensures forall i :: 1 <= i <= 3 ==> |Decode(b).columns[i]| == i
  {
    EmptyTopsWellFormed(b);
    TopsHeight(b, 0);
    TopsHeight(b, 1);
    TopsHeight(b, 2);
    TopsHeight(b, 3);
    NoCellSet(b, 0, 0);
    assert Decode(b).columns[0] == DecodeColumn(b, 0) == [Zero];
    assert Decode(b).columns[1] == DecodeColumn(b, 1);
    assert Decode(b).columns[2] == DecodeColumn(b, 2);
    assert Decode(b).columns[3] == DecodeColumn(b, 3);
  }

  /** From an empty origin cell at (0, 0), only the up-right slot is enabled and its walk decides. */
  lemma ZeroOriginScan(b: Buffer, rule: Rule)
    requires CornerWalkable(b) && b[0] & 128 == 0
    ensures WalkSteps(b, 0, 0, UpRight, 3).Ok?
    ensures ScanWith(b, 0, 0, rule) == Ok(Matches(rule, WalkSteps(b, 0, 0, UpRight, 3).value, 0))
  {
    CornerDiagonalBits(b);
    assert CheckSpot(b, 0, 0) == Ok(0);
    assert CheckSpotDistances(b, 0, 0) == Ok(Distances(true, false, false, false));
    SampleWalk(b);
    var ds := Distances(true, false, false, false);
    assert ScanFrom(b, 0, 0, 0, ds, rule, 1) == Ok(false) by {
      assert ScanFrom(b, 0, 0, 0, ds, rule, 3) == Ok(false);
      assert ScanFrom(b, 0, 0, 0, ds, rule, 2) == Ok(false);
    }
  }

  /**
   * check_spot accepts the empty spot on top of a column and reads it as 0,
   * like a Zero piece, so a lone Zero piece at (0, 0) "wins" on a diagonal
   * whose other three spots are empty column tops; raw comparison agrees,
   * since a Zero origin reads 0 as well.
   */
  lemma EmptyTopsWinForZero(b: Buffer)
    requires EmptyTops(b)
    ensures WellFormed(b)
    ensures Decode(b).columns[0] == [Zero]
    ensures forall i :: 1 <= i <= 3 ==> |Decode(b).columns[i]| == i
    ensures CheckDiagsFromEnd(b, 0, 0) == Ok(true)
    ensures CheckDiagsRawValues(b, 0, 0) == Ok(true)
  {
    EmptyTopsBoard(b);
    SampleWalk(b);
    var seen := WalkSteps(b, 0, 0, UpRight, 3).value;
    assert seen[0] == 0 && seen[1] == 0 && seen[2] == 0;
    assert CheckDiagsFromEnd(b, 0, 0) == Ok(true) by {
      ZeroOriginScan(b, EveryStep);
    }
    assert CheckDiagsRawValues(b, 0, 0) == Ok(true) by {
      ZeroOriginScan(b, RawValues);
    }
  }
}
